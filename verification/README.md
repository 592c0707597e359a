# Verification of the matching, voice and platform cores

Dafny models of six cores of the repository, with proofs about whole runs, over all inputs.
`dafny verify dfyconfig.toml` checks everything; there is nothing to execute.

## What is modelled

**Matching** (`RedisKeys`, `Ranking`, `MatchModel`, `MatchInvariants`, `MatchSymmetry`, `MatchExclusivity`,
`MatchActive`, `MatchEffects`, `MatchJob`, `MatchOrchestrator`, `MatchFinalize`, `MatchRoom`, `MatchProgress`,
`MatchRuns`, `ProposalConnect`, `StartSearch`). The matching service keeps all of its state in Redis.
`MatchOrchestrator` holds the keys as fields of a class and follows the handlers command by command; each method
is proved equal to one function of `MatchModel`, and a `System` of such functions runs any sequence of handlers,
worker passes and key expiries. `MatchEffects` says, on the fields of the store, what each handler writes and
answers. Three invariants are carried over all runs. *Symmetry*: a proposal record exists exactly when both users
hold an attempt proposed to the other. *Exclusivity*: no user is in two open proposals and all locks agree, also
after locks expire. *One active attempt* (`MatchActive`): of a user's attempts only the last one is searching or
proposed. Each comes with the exact guard of every step (if and only if). `MatchFinalize` and `MatchRoom` let any
run happen while a room is being created, `MatchProgress` says what becomes of users whose proposal expires, and
`MatchRuns` holds runs from the empty store that violate what the guards protect. `ProposalConnect` treats the
connect script over arbitrary histories of calls, and `StartSearch` interleaves concurrent start calls between any
two Redis commands.

**Voice** (`RtpParser`, `AudioBuffer`, `Aggregator`). The packet parser against the format of sections 5.1 and
5.3.1 of RFC 3550 as an exact inverse, the adapter and its buffers with byte-for-byte conservation, and the
recency-weighted scores with exact closed forms, error bounds and a rearrangement theorem.

**Platform** (`Migrations`, `IlikeEscape`, `RateLimit`, `RouteGuard`, `TapIndex`). The migration runner under
arbitrary query failures, pattern escaping against PostgreSQL's matching rules, the sliding-window bound of the
rate limiter, the redirects of the route guard, and the tap index.

`Types` holds what the modules share. Redis scripts and pipelines are single steps, clocks and foreign answers
(profile snapshots, scored candidates, room creation, query failures) are parameters, and scores are reals.

## Findings

Properties that one would expect and that the code does not have. For each there is a run from the empty store
or a concrete input, and the exact condition.

- `leaveRoom` deletes the user's lock and state without looking at them. Called by a user who is in a proposal
  it leaves the locks out of step (`LeavingBreaksBoth`; `LeaveKeepsSymmetryIff`, `LeaveKeepsExclusivityIff`).
- A missing profile snapshot, at the start of a search or of a job, overwrites the user's last attempt even
  while the user is in a proposal. A cancel then no longer finds the proposal, and the user can get into a
  second one (`TwoProposalsAtOnce`; `StepKeepsExclusivityIff`). Key expiry alone never does that.
- Every write to an attempt makes it its user's last one, also when another one is active; the next start call
  does not see that one and creates a second (`HiddenAttemptIsDoubled`). A refused start does that
  (`TwoSearchesAtOnce`), and so does a job that gives up or proposes after its user has cancelled it and searched
  again: the user then has two searches (`TwoSearchesAfterGivingUp`), or is in a proposal and searching at once
  (`SearchDuringProposal`). These are the only steps that do (`MatchActive.StepKeepsOneActiveIff`), besides a room
  answer that arrives late (`LandKeepsOneActiveIff`). The same holds between the commands of concurrent start
  calls (`StartSearch.StepKeepsInvIff`).
- A user who skips or cancels while the room of their proposal is being created is told that it worked, and is
  then put into the room with the other user (`SkipIsUndone`; `MatchedAfterTearDownIff`), also out of a proposal
  that they have got into meanwhile (`RoomDuringProposal`; `LandAfterRunKeepsExclusivityIff`).
- When a proposal expires both users stay locked: starting again answers with the dead proposal
  (`ExpiryStrandsBoth`; `StepKeepsStuckIff`), and no step but their own cancel, leaving a room, or an older queued
  search that ends for want of a snapshot lets them search again (`StepKeepsBarredIff`), except the answer of a
  room that was asked for before the expiry (`LandingUnlocks`).
- Connect calls that are past their checks when a proposal is cleaned up recreate its flags; if both sides have
  such a call a second room is elected (`SecondRoomIff`). So it is, without any clean-up, when a call comes
  after the finalize key has expired and the record has not (`AnswerFromHistory`).
- Pair keys join two ids with a colon. Two pairs share a key exactly when the ids of one are those of the other
  shifted around a colon (`PairKeysMeetIff`, `PairKeyCollides`).
- A migration file without statements is never recorded in the ledger: later runs visit it again, which changes
  nothing (`CommitsMissingOnce`, `NothingLeftToDo`).
- The route guard lets every path through that ends like a static file, paths below guest-blocked routes included
  (`StaticSuffixBypasses`); this is the only way round it (`AnonymousEnds`, `GuestEnds`), and no user's profile
  can be reached by it (`ProfilesAreGuarded`).

## Model

| member | source | states |
|---|---|---|
| MatchSymmetry.ProposalsStaySymmetric | apps/matching-service/src/modules/simple-matching/orchestrator.ts:447-475 | From the empty store, after any run of handlers and jobs that respects the guards: a record and a pair lock exist exactly when both users hold attempts proposed to each other, and no attempt was put to the room service twice |
| MatchExclusivity.ProposalsStayExclusive | apps/matching-service/src/core/redis/scripts.ts:2-49 | From the empty store, after any run that respects the guards, keys expiring at will: a user has at most one open proposal and at most one pair lock, and the lock of a pair is the lock of both its users |
| MatchSymmetry.StepKeepsSymmetryIff | apps/matching-service/src/modules/simple-matching/orchestrator.ts:75-800 | Every atomic step (start, the parts of a worker job, Connect, Skip, cancel, leave, expiry) keeps the symmetry of proposals if and only if its guard holds; the only steps with a guard are leaving while holding a user lock, and expiry of live keys |
| MatchSymmetry.RunsAreSymmetric | apps/matching-service/src/modules/simple-matching/orchestrator.ts:75-800 | Symmetry holds at the end of every run of any length whose steps respect the guards |
| MatchSymmetry.RecordIffBothProposed | apps/matching-service/src/modules/simple-matching/orchestrator.ts:447-475 | A pending record for two users exists exactly when each has an attempt proposed to the other; then the record names those two attempts and no other attempt of either is proposed to the other |
| MatchSymmetry.AnswerEndsBothOrNeither | apps/matching-service/src/modules/simple-matching/orchestrator.ts:598-703 | Skip ends both attempts; a first Connect ends neither; the Connect that completes the pair asks for exactly one room and matches each attempt with the other user in it, with the score of the record, or ends both if the room service fails; whenever the proposal ends, record and all three locks are gone |
| MatchSymmetry.CancelEndsBoth | apps/matching-service/src/modules/simple-matching/orchestrator.ts:764-799 | Cancelling while in a proposal ends the attempts of both users and removes record and locks |
| MatchSymmetry.LeaveKeepsSymmetryIff | apps/matching-service/src/modules/simple-matching/orchestrator.ts:571-596 | Leaving a room keeps symmetry exactly when the user holds no lock: the handler deletes the lock without looking |
| MatchSymmetry.ExpiryKeepsSymmetryIff | apps/matching-service/src/core/redis/scripts.ts:28-44 | Expiry of the locks of a pair, or of a record, breaks symmetry exactly when they were there |
| MatchInvariants.EndBothCloses | apps/matching-service/src/modules/simple-matching/orchestrator.ts:705-721 | Tearing a proposal down removes one record and its locks, ends both its attempts, and touches nothing of any other proposal |
| MatchInvariants.EnterRoomCloses | apps/matching-service/src/modules/simple-matching/orchestrator.ts:674-689 | Entering the room does the same, with each attempt matched with the other user, in one room |
| MatchInvariants.ProposeKeepsBase | apps/matching-service/src/modules/simple-matching/orchestrator.ts:447-475 | A new proposal of two users who were in none keeps locks, records and attempts in agreement |
| MatchInvariants.SoundIsInjective | apps/matching-service/src/modules/simple-matching/orchestrator.ts:447-460 | Two proposals of different pairs never share an attempt |
| MatchEffects.RepeatedStart | apps/matching-service/src/modules/simple-matching/orchestrator.ts:78-85 | A repeated request id is answered from the fields of its attempt, one answer for each status, and writes nothing |
| MatchEffects.ReportIsUnique | apps/matching-service/src/modules/simple-matching/repositories/attempt.ts:160-189 | The fields of an attempt admit exactly one such answer |
| MatchEffects.JoiningStart | apps/matching-service/src/modules/simple-matching/orchestrator.ts:94-117 | A new start that finds the last attempt searching or proposed is answered with it, under its id, and writes nothing |
| MatchEffects.RefusedStart | apps/matching-service/src/modules/simple-matching/orchestrator.ts:87-113 | Without a snapshot the new attempt ends with "snapshot_not_found", in a room or locked outside a proposal with "user_unavailable"; it becomes the last one, and nothing else changes |
| MatchEffects.CommittingStart | apps/matching-service/src/modules/simple-matching/orchestrator.ts:60-69 | Any other start writes a searching attempt, the last-attempt key, the pool, the state and the job at the end of the queue, and nothing else |
| MatchEffects.ProposalWrites | apps/matching-service/src/modules/simple-matching/orchestrator.ts:442-475 | A proposal locks both users and the pair under the request id of the job, and writes the record and both attempts with the peer of each, the score of the candidate and the fallback flag; nothing else changes |
| MatchEffects.ScanPairsFirst | apps/matching-service/src/modules/simple-matching/orchestrator.ts:393-445 | A scan pairs the first candidate who is lockable and whose own last attempt is searching, and nobody only if there is no such candidate |
| MatchEffects.ScanEvicts | apps/matching-service/src/modules/simple-matching/orchestrator.ts:422-436 | It evicts from the pool exactly the lockable candidates without any attempt that it tries before |
| MatchEffects.FinishWrites | apps/matching-service/src/modules/simple-matching/orchestrator.ts:268-269 | A job that gives up ends its attempt with the reason, makes it the last one, removes its user from pool and states, and changes nothing else |
| MatchEffects.RefusedAnswer | apps/matching-service/src/modules/simple-matching/orchestrator.ts:603-615 | The three refusals of an answer, each exactly when the attempt is not the user's own, is not in a proposal, or has lost its record; none of them writes anything |
| MatchEffects.SkipWrites | apps/matching-service/src/modules/simple-matching/orchestrator.ts:617-637 | A skip ends the attempt of the user with "you_skipped" and that of the peer with "peer_skipped", frees and unlocks both, and changes nothing else |
| MatchEffects.WaitingConnect | apps/matching-service/src/modules/simple-matching/orchestrator.ts:639-642 | A Connect that is not elected sets the flag of its side and nothing else |
| MatchEffects.ConnectWrites | apps/matching-service/src/modules/simple-matching/orchestrator.ts:639-703 | The Connect that is elected asks for one room under the attempt id of the record; then both users are in the room, out of the pool and unlocked, each attempt with the other user, room and score, or both attempts end with "room_create_failed" |
| MatchEffects.LandWrites | apps/matching-service/src/modules/simple-matching/orchestrator.ts:651-689 | The same for a room answer that comes late, whatever the store is by then |
| MatchEffects.CancelWrites | apps/matching-service/src/modules/simple-matching/orchestrator.ts:764-793 | A cancel in a proposal ends the attempts with "cancelled_by_user" and "proposal_peer_cancelled" and takes the user out of the pool |
| MatchEffects.CancelOutsideWrites | apps/matching-service/src/modules/simple-matching/orchestrator.ts:764-798 | Any other cancel removes the user from pool and states and ends the last attempt with "cancelled_by_user" |
| MatchEffects.LeaveWrites | apps/matching-service/src/modules/simple-matching/orchestrator.ts:571-596 | Leaving ends a matched last attempt with "left_room" and no other, and removes the user from pool, locks and states |
| MatchExclusivity.StepKeepsExclusivityIff | apps/matching-service/src/modules/simple-matching/orchestrator.ts:75-800 | With expiry included, every step keeps proposals exclusive if and only if its guard holds; the guard excludes a user in an open proposal (or still locked) leaving, and one whose profile snapshot cannot be loaded |
| MatchExclusivity.RunsAreExclusive | apps/matching-service/src/modules/simple-matching/orchestrator.ts:75-800 | In every run that respects the guards all open proposals are pairwise disjoint and pair locks agree with user locks, also after locks have expired |
| MatchExclusivity.ProposalsDisjoint | apps/matching-service/src/core/redis/scripts.ts:14-26 | Exclusivity means that no user is in two open proposals |
| MatchExclusivity.UnlockedIsFree | apps/matching-service/src/core/redis/scripts.ts:22-26 | A user whose state is not `locked` is in no proposal; so the state check of the lock script alone keeps users out of a second one when the locks are gone |
| MatchExclusivity.StartInProposal | apps/matching-service/src/modules/simple-matching/orchestrator.ts:94-117 | Starting a search during a proposal changes nothing, and the answer carries the user's own attempt in that proposal as request id, the other user, and the score and fallback flag of its record |
| MatchExclusivity.StartKeepsExclusivityIff | apps/matching-service/src/modules/simple-matching/orchestrator.ts:87-92 | Starting without a profile snapshot during a proposal is exactly what breaks exclusivity: it overwrites the last attempt |
| MatchExclusivity.BeginKeepsExclusivityIff | apps/matching-service/src/modules/simple-matching/orchestrator.ts:164-179 | The same at the start of a worker job |
| MatchExclusivity.LeaveKeepsExclusivityIff | apps/matching-service/src/modules/simple-matching/orchestrator.ts:571-596 | Leaving keeps exclusivity exactly when the user has no lock and is in no open proposal |
| MatchRuns.TwoProposalsAtOnce | apps/matching-service/src/modules/simple-matching/orchestrator.ts:87-92 | From the empty store, for any users and ids: a proposal, a start whose profile snapshot is missing, a cancel, lock expiry, and new searches; one user is then in two open proposals |
| MatchRuns.SecondProposalFollows | apps/matching-service/src/modules/simple-matching/orchestrator.ts:87-92 | From any state in which the invariant holds, a proposal is open and the worker is idle, the same steps always lead to a second proposal |
| MatchRuns.LeavingBreaksBoth | apps/matching-service/src/modules/simple-matching/orchestrator.ts:571-596 | From the empty store: two starts, a proposal, and one of the two leaves; the pair stays locked and its record stays, but that user holds no lock and is not locked |
| MatchActive.UsersHaveOneActive | apps/matching-service/src/modules/simple-matching/orchestrator.ts:75-144 | From the empty store, after any run that respects the guards, keys expiring at will: of the attempts of a user only the last one can be searching or proposed |
| MatchActive.StepKeepsOneActiveIff | apps/matching-service/src/modules/simple-matching/orchestrator.ts:75-800 | Every step of the protocol, expiry included, keeps every active attempt the last one of its user if and only if its guard holds; the steps with a guard are a refused start, and the proposing or giving up of a job that is no longer the last attempt of its user, and they fail exactly if the last one is active |
| MatchActive.RunsHaveOneActiveIff | apps/matching-service/src/modules/simple-matching/orchestrator.ts:75-800 | The property holds at every point of a run exactly if every step of the run respects its guard |
| MatchActive.StepKeepsCore | apps/matching-service/src/modules/simple-matching/orchestrator.ts:75-800 | No guard at all is needed for this: attempts, queued jobs and last attempts stay with their owners, every record names two attempts proposed to each other, and the job in progress is not proposed |
| MatchActive.HiddenAttemptIsDoubled | apps/matching-service/src/modules/simple-matching/orchestrator.ts:115-134 | Once an active attempt is not the last one, the next start that is let through leaves its user with two |
| MatchActive.LandKeepsOneActiveIff | apps/matching-service/src/modules/simple-matching/orchestrator.ts:644-689 | The answer of the room service, whenever it arrives, keeps the property exactly if neither user is by then active under another attempt |
| MatchRuns.TwoSearchesAfterGivingUp | apps/matching-service/src/modules/simple-matching/orchestrator.ts:262-269 | From the empty store: a user cancels while the worker is at their job and searches again, the job finds the pool empty, and the next start leaves two searches of that user |
| MatchRuns.RestartThenGivesUp | apps/matching-service/src/modules/simple-matching/orchestrator.ts:262-269 | So it goes from any state in which the worker is at a job whose user searches under it, whatever the reason |
| MatchRuns.SearchDuringProposal | apps/matching-service/src/modules/simple-matching/orchestrator.ts:462-475 | From the empty store, in a run that keeps symmetry and exclusivity: a user cancels and searches again, and the job then pairs them; they are in a proposal and searching at once |
| MatchRuns.RestartThenProposes | apps/matching-service/src/modules/simple-matching/orchestrator.ts:462-475 | So it goes from any state in which the worker is at such a job and a candidate can be paired |
| MatchProgress.ExpiryLeavesStuck | apps/matching-service/src/core/redis/scripts.ts:28-47 | When locks and record of an open proposal expire both users stay locked with a proposed attempt, because the state key has no time to live |
| MatchProgress.StuckAnswers | apps/matching-service/src/modules/simple-matching/orchestrator.ts:94-104 | A stuck user who starts again is answered with the dead proposal under its own attempt id, answering it is refused, and nobody can be paired with them |
| MatchProgress.StepKeepsStuckIff | apps/matching-service/src/modules/simple-matching/orchestrator.ts:75-800 | Every step leaves that so if and only if it is not their own cancel, their leaving a room, or a check of theirs that finds no profile snapshot |
| MatchProgress.StuckUntilFreed | apps/matching-service/src/modules/simple-matching/orchestrator.ts:75-800 | So after any run without such a step they are still shown the dead proposal |
| MatchProgress.BarredCannotSearch | apps/matching-service/src/modules/simple-matching/orchestrator.ts:96-113 | A user who is locked and in no proposal cannot begin a search, and nobody is paired with them |
| MatchProgress.StepKeepsBarredIff | apps/matching-service/src/modules/simple-matching/orchestrator.ts:75-800 | Every step leaves such a user barred if and only if it is not their own cancel, their leaving a room, or a queued search of theirs that the worker ends for want of a snapshot; a refused start does not help |
| MatchProgress.BarredUntilFreed | apps/matching-service/src/modules/simple-matching/orchestrator.ts:75-800 | So no run without such a step lets them search again, however long |
| MatchRuns.ExpiryStrandsBoth | apps/matching-service/src/core/redis/scripts.ts:28-47 | From the empty store: a proposal that nobody answers in time leaves both users with the dead proposal and barred from searching |
| MatchRoom.MatchedAfterTearDownIff | apps/matching-service/src/modules/simple-matching/orchestrator.ts:644-689 | While the room is being created any run of other steps may happen: each attempt is matched with the other user in the end in any case, their proposal had been torn down if and only if one of the two skipped or cancelled (or its record expired), and otherwise the proposal ends as without the delay and exclusivity is kept |
| MatchRoom.OpenUnlessTornDown | apps/matching-service/src/modules/simple-matching/orchestrator.ts:639-644 | The proposal stays open exactly in the runs without such a step, and the system stays in the state of creating a room |
| MatchRoom.StepKeepsProposalIff | apps/matching-service/src/modules/simple-matching/orchestrator.ts:598-642 | Step by step: repeated Connects, other users, the worker and lock expiry leave the proposal as it is; a skip or cancel of one of the two ends both attempts |
| MatchRoom.ElectionCreates | apps/matching-service/src/modules/simple-matching/orchestrator.ts:639-644 | The elected call leaves exactly the state that these results start from |
| MatchFinalize.StepSettles | apps/matching-service/src/modules/simple-matching/orchestrator.ts:75-800 | While a room is being created no step but a repeated Connect looks at the finalize key: with or without it every other step does the same |
| MatchFinalize.StepKeepsInFlightIff | apps/matching-service/src/modules/simple-matching/orchestrator.ts:639-689 | Until the room service answers, the proposal being open or gone, every step keeps proposals exclusive up to the finalize key, and that key the only one, if and only if its guard holds |
| MatchFinalize.RunsKeepInFlight | apps/matching-service/src/modules/simple-matching/orchestrator.ts:639-689 | So does every run that respects the guards |
| MatchRoom.LandingMatches | apps/matching-service/src/modules/simple-matching/orchestrator.ts:674-689 | A room that has been created takes in both users whatever has happened since, each attempt with the other user, the room and the score |
| MatchRoom.LandAfterRunKeepsExclusivityIff | apps/matching-service/src/modules/simple-matching/orchestrator.ts:644-689 | Whatever run the creation of a room takes, with its proposal torn down, expired or open: the answer of the room service, success or failure, keeps proposals exclusive if and only if neither user is by then in another proposal or under the lock of another pair |
| MatchRoom.LandKeepsExclusivityIff | apps/matching-service/src/modules/simple-matching/orchestrator.ts:644-689 | The same for any state in which a room answer may arrive |
| MatchRoom.LandingUnlocks | apps/matching-service/src/modules/simple-matching/orchestrator.ts:644-689 | Whichever way it is answered, neither user is locked afterwards; a user stranded by expiry is free again |
| MatchRuns.SkipIsUndone | apps/matching-service/src/modules/simple-matching/orchestrator.ts:617-689 | From the empty store: both connect, one skips while the room is being created and is told that it worked, both attempts end, and then both users are put into the room |
| MatchRuns.RoomDuringProposal | apps/matching-service/src/modules/simple-matching/orchestrator.ts:617-689 | From the empty store: after that skip the user searches again and gets a proposal with a third one; then the room arrives and takes them in, and the proposal stays open |
| MatchJob.JobLeavesNoLocks | apps/matching-service/src/modules/simple-matching/orchestrator.ts:161-275 | A job ends with exactly one new proposal, made to a candidate that no pairable candidate of that scan outranks, or with locks and records as they were; one pass per scan at most, the fallback only if no scan scored anyone, and giving up only if nobody seen could be paired. It gives up with "pool_empty" if and only if every scan found the pool empty and with "no_compatible_candidate" otherwise, and its attempt ends with that reason; each early exit has its own answer |
| MatchJob.PassesOutcome | apps/matching-service/src/modules/simple-matching/orchestrator.ts:204-241 | The retry loop makes one proposal in its last pass or changes nothing but the pool |
| MatchJob.ScanPicksBest | apps/matching-service/src/modules/simple-matching/orchestrator.ts:393-501 | The peer of a scan is scored, lockable and searching, and no other such candidate outranks them |
| MatchJob.FallbackOutcome | apps/matching-service/src/modules/simple-matching/orchestrator.ts:506-550 | The same for the fallback scan, over whatever the passes before it evicted from the pool |
| MatchJob.JobIsRun | apps/matching-service/src/modules/simple-matching/worker.ts:29-41 | An uninterrupted job equals a run of the protocol steps, so the run theorems hold of it |
| MatchJob.JobKeepsSymmetry | apps/matching-service/src/modules/simple-matching/orchestrator.ts:161-276 | A whole job never breaks symmetry |
| MatchJob.JobKeepsOneActive | apps/matching-service/src/modules/simple-matching/orchestrator.ts:161-276 | A whole job that nobody interrupts never leaves a user with an active attempt that is not the last |
| MatchOrchestrator.Redis.TryLockPair | apps/matching-service/src/core/redis/scripts.ts:2-49 | The script run command by command answers 1 exactly when pair and users are unlocked, different and both searching; then it sets all locks and states, otherwise nothing, the undo after a failed second lock included |
| MatchOrchestrator.Redis.ReleaseLocks | apps/matching-service/src/modules/simple-matching/pool/lock.ts:36-46 | Releases the pair lock and both user locks and puts both users back to searching |
| MatchOrchestrator.Redis.RecordProposalConnect | apps/matching-service/src/core/redis/scripts.ts:52-69 | The connect script changes one flag and at most the finalize key, and answers 0, 1 or 2 as the specification says |
| MatchOrchestrator.LockThenRelease | apps/matching-service/src/modules/simple-matching/orchestrator.ts:426-445 | Locking a pair and releasing it again restores every key, which is what `continue` after a failed peer check relies on |
| MatchOrchestrator.MatchOrchestratorService.StartFindMatch | apps/matching-service/src/modules/simple-matching/orchestrator.ts:75-144 | Whatever other calls do whenever this one waits, also past the wait limit: it is refused or answered at once as the atomic start step says, or else it joins or begins a search as one step on one of the stores it wakes up to, with the lock given back |
| MatchOrchestrator.MatchOrchestratorService.TryPairWithSortedCandidates | apps/matching-service/src/modules/simple-matching/orchestrator.ts:380-504 | The greedy loop of lock, check, release and evict equals: evict the stale candidates before the first pairable one, and propose to that one |
| MatchOrchestrator.MatchOrchestratorService.RunPasses | apps/matching-service/src/modules/simple-matching/orchestrator.ts:201-241 | The loop with its two flags: the flags are about all scans when none paired |
| MatchOrchestrator.MatchOrchestratorService.ProcessMatchRequest | apps/matching-service/src/modules/simple-matching/orchestrator.ts:161-276 | The worker job with all its early exits, the retry budget and the failure reasons equals the job specification |
| MatchOrchestrator.MatchOrchestratorService.TeardownProposal | apps/matching-service/src/modules/simple-matching/orchestrator.ts:705-721 | Deletes record and finalize key, releases the pair and ends both attempts |
| MatchOrchestrator.MatchOrchestratorService.MarkPairInRoom | apps/matching-service/src/modules/simple-matching/orchestrator.ts:552-568 | Both users leave the pool, lose all locks and are in the room |
| MatchOrchestrator.MatchOrchestratorService.RespondToMatchProposal | apps/matching-service/src/modules/simple-matching/orchestrator.ts:598-703 | The handler with its four refusals equals the atomic answer step |
| MatchOrchestrator.MatchOrchestratorService.CancelMatch | apps/matching-service/src/modules/simple-matching/orchestrator.ts:764-799 | The handler equals the atomic cancel step, its early return included |
| MatchOrchestrator.MatchOrchestratorService.LeaveRoom | apps/matching-service/src/modules/simple-matching/orchestrator.ts:571-596 | The handler equals the atomic leave step |
| ProposalConnect.HandlerRunsScript | apps/matching-service/src/core/redis/scripts.ts:52-69 | The handler step of the protocol is the script on the three flags that the next results are about |
| ProposalConnect.FlagsTellHistory | apps/matching-service/src/core/redis/scripts.ts:58-62 | After any history of calls, clean-ups and expiries the flags say exactly who has called and whether an election is alive |
| ProposalConnect.AnswerFromHistory | apps/matching-service/src/core/redis/scripts.ts:61-68 | The answer of any call from the history alone: 0 iff the other side has not called, 2 iff it has and no election is alive, 1 otherwise |
| ProposalConnect.OneRoomPerProposal | apps/matching-service/src/modules/simple-matching/orchestrator.ts:639-689 | For any sequence of Connect calls in any order and with repeats, exactly one answers 2 if both sides call and none otherwise; earlier calls answer 0 and later ones 1 |
| ProposalConnect.CleanupStartsOver | apps/matching-service/src/modules/simple-matching/proposal/proposal.ts:56-60 | Deleting record and finalize key forgets the history, and room elections before and after simply add up |
| ProposalConnect.SecondRoomIff | apps/matching-service/src/modules/simple-matching/orchestrator.ts:612-642 | Calls that read the record before the clean-up but reach the script after it elect a second room exactly when both sides have one |
| StartSearch.MutualExclusion | apps/matching-service/src/modules/simple-matching/orchestrator.ts:115-134 | For any number of interleaved start calls of one user, together with refusals, proposals and endings of any of the attempts, last one or not: as long as these are harmless, at most one attempt is searching or proposed at any time |
| StartSearch.StepKeepsInvIff | apps/matching-service/src/modules/simple-matching/orchestrator.ts:118-134 | Every step keeps the invariant if and only if it is harmless. Commands of calls always are; turning a call away, or ending an attempt, is exactly if no other attempt is active that is not still being committed; proposing under an attempt that is over exactly if none is active and no call relies on that |
| StartSearch.RunsKeepInv | apps/matching-service/src/modules/simple-matching/orchestrator.ts:118-134 | So does every interleaving of harmless steps |
| StartSearch.AtMostOneActive | apps/matching-service/src/modules/simple-matching/helpers.ts:27-44 | The invariant leaves room for one active attempt |
| StartSearch.FoundIsTheActiveOne | apps/matching-service/src/modules/simple-matching/helpers.ts:31-42 | A call that decides to answer with an existing attempt does so exactly when that attempt is active, and then it is the only one |
| StartSearch.OnlyHolderActivates | apps/matching-service/src/modules/simple-matching/helpers.ts:46-63 | An attempt becomes active only by the call that holds the start lock, or by a proposal under an attempt that was over; and, harmful proposals excepted, only when no other is |
| StartSearch.EndingHidesAttempt | apps/matching-service/src/modules/simple-matching/orchestrator.ts:87-113 | From any state with an active attempt and a free lock: a refusal, or the ending of another attempt, makes that other one the last, so the next call no longer sees the active one and creates a second |
| StartSearch.HiddenAttemptIsDoubled | apps/matching-service/src/modules/simple-matching/helpers.ts:27-44 | The same from any state in which the active attempt is not the last one |
| StartSearch.TwoSearchesAtOnce | apps/matching-service/src/modules/simple-matching/orchestrator.ts:87-113 | From the empty store: one call, one refusal and one more call leave two active attempts |
| StartSearch.UndisturbedCallIsStart | apps/matching-service/src/modules/simple-matching/orchestrator.ts:75-144 | A call run command by command without interruption has the effect and the answer of the atomic start step on its user |
| StartSearch.RefusalIsStart | apps/matching-service/src/modules/simple-matching/orchestrator.ts:87-113 | A call that is turned away has the effect of the refusal step |
| StartSearch.WritesAreSteps | apps/matching-service/src/modules/simple-matching/repositories/attempt.ts:76-158 | Marking an attempt as proposed, matched or ended in the store, the last attempt included, is the proposing or ending step |
| Ranking.SortScoredCandidatesDescending | apps/matching-service/src/modules/simple-matching/helpers.ts:68-73 | The in-place sort leaves exactly the sorted sequence of the old contents |
| Ranking.SortIsStable | apps/matching-service/src/modules/simple-matching/helpers.ts:68-73 | That sequence is the stable sort by match score, then pool score, both descending |
| Ranking.PartitionDeprioritizedCandidates | apps/matching-service/src/modules/simple-matching/helpers.ts:85-108 | One loop into three lists gives the three tiers one after the other; with no known peers the list is returned as it is |
| Ranking.RankCandidatesForPairing | apps/matching-service/src/modules/simple-matching/helpers.ts:114-121 | Returns the stable sort by (tier, match score, pool score) and a permutation of its input, which it does not change |
| Ranking.RankIsStableSort | apps/matching-service/src/modules/simple-matching/helpers.ts:110-121 | Sorting and then partitioning is one stable sort by the three-part order |
| Ranking.RankedOrder | apps/matching-service/src/modules/simple-matching/helpers.ts:85-121 | In the resulting list fresh candidates precede known peers and those precede skipped ones, known or not; within a kind the higher match score comes first, then the higher pool score |
| Ranking.StableSortUnique | apps/matching-service/src/modules/simple-matching/helpers.ts:110-121 | There is only one such list |
| Ranking.StableSortIsPermutation | apps/matching-service/src/modules/simple-matching/helpers.ts:110-121 | A stable sort keeps every candidate as often as it occurs |
| Ranking.FirstAcceptedIsBest | apps/matching-service/src/modules/simple-matching/orchestrator.ts:393-501 | The first candidate in rank order that passes any test is outranked by no other that passes it |
| RedisKeys.PairOfSymmetric | apps/matching-service/src/core/redis/keys.ts:14-25 | Both users of a pair reach the same canonical pair, whichever of them is named first, and the smaller id leads |
| RedisKeys.PairOfInjective | apps/matching-service/src/core/redis/keys.ts:14-25 | Two pairs have the same canonical form exactly when they hold the same users |
| RedisKeys.LeqIsLexicographic | apps/matching-service/src/core/redis/keys.ts:14-17 | The order of ids is the dictionary order: a prefix first, otherwise the first difference decides |
| RedisKeys.PairKeysMeetIff | apps/matching-service/src/core/redis/keys.ts:14-25 | Two pairs share a key if and only if they are one pair, or the ids of one are those of the other shifted around a colon; without colons in ids that leaves only the same pair |
| RedisKeys.PairKeyCollides | apps/matching-service/src/core/redis/keys.ts:14-25 | Such a shift exists: two different pairs of ids with colons share a key |
| RtpParser.ParseRtp | apps/voiceiq-service/src/sources/rtp-parser.ts:35-67 | The step-by-step parser with its early returns accepts exactly the well-formed packets, reads only inside the buffer, and returns the fields of the one packet that the buffer encodes |
| RtpParser.ParseAfterSerialize | apps/voiceiq-service/src/sources/rtp-parser.ts:35-67 | For every CSRC count, extension length, flags and non-empty payload, parsing an encoded packet returns exactly what was encoded |
| RtpParser.SerializeAfterParse | apps/voiceiq-service/src/sources/rtp-parser.ts:48-58 | Every accepted buffer is header, CSRC list, optional extension and payload, and encodes back to itself |
| RtpParser.ParseInvertsSerialize | apps/voiceiq-service/src/sources/rtp-parser.ts:35-67 | Acceptance is equivalent to being the encoding of some packet |
| RtpParser.FieldsAreParsed | apps/voiceiq-service/src/sources/rtp-parser.ts:60-66 | The parser returns SSRC, sequence number, timestamp, payload type and payload under their own names |
| RtpParser.FlagsStand | apps/voiceiq-service/src/sources/rtp-parser.ts:38-43 | An encoded packet has version 2, padding, extension and marker bits, CSRC count and payload type where section 5.1 of RFC 3550 places them |
| RtpParser.NumbersStand | apps/voiceiq-service/src/sources/rtp-parser.ts:44-46 | Sequence number, timestamp and SSRC stand at octets 2, 4 and 8, most significant octet first |
| RtpParser.SourcesStand | apps/voiceiq-service/src/sources/rtp-parser.ts:48-49 | Each contributing source follows the fixed header in its turn |
| RtpParser.ExtensionStands | apps/voiceiq-service/src/sources/rtp-parser.ts:51-56 | After them profile and length of the extension, as in section 5.3.1 |
| RtpParser.ExtensionWordStands | apps/voiceiq-service/src/sources/rtp-parser.ts:51-56 | And each word of the extension |
| RtpParser.PayloadStands | apps/voiceiq-service/src/sources/rtp-parser.ts:58-66 | The payload is everything after that |
| AudioBuffer.AudioBufferPool.Push | apps/voiceiq-service/src/sources/audio-buffer.ts:45-58 | The method appends the chunk and its duration and flushes and deletes the buffer at 30 seconds; no other buffer changes |
| AudioBuffer.PushHandsOver | apps/voiceiq-service/src/sources/audio-buffer.ts:54-99 | A push that fills the window hands over exactly the live audio of its participant and the new chunk, and leaves nothing behind |
| AudioBuffer.PushAdds | apps/voiceiq-service/src/sources/audio-buffer.ts:45-58 | Any other push adds the chunk to the live audio and flushes nothing |
| AudioBuffer.SecondsOf | apps/voiceiq-service/src/sources/audio-buffer.ts:129-133 | A second of linear audio is two bytes per sample and a second of Opus 3000 bytes |
| AudioBuffer.ClearForgets | apps/voiceiq-service/src/sources/audio-buffer.ts:69-72 | Clearing forgets the live audio of one participant, and neither the audio of the others nor any window |
| AudioBuffer.RunsAreBounded | apps/voiceiq-service/src/sources/audio-buffer.ts:45-72 | After any sequence of pushes, transcripts and clears every live buffer holds less than 30 seconds and every flushed window at least 30 and less than 30 plus its last chunk |
| AudioBuffer.OthersLeaveBufferAlone | apps/voiceiq-service/src/sources/audio-buffer.ts:45-72 | Any sequence of pushes and clears under other keys, and of transcripts under any, leaves a buffer as it is |
| AudioBuffer.KeysDifferInSession | apps/voiceiq-service/src/sources/audio-buffer.ts:118-120 | Participants of one session never share a key, whatever their ids |
| AudioBuffer.KeysMeetIff | apps/voiceiq-service/src/sources/audio-buffer.ts:118-120 | Two participants of any sessions share a key if and only if they are the same, or shifted around a colon; without colons in session ids that leaves only the same one |
| AudioBuffer.PushConserves | apps/voiceiq-service/src/sources/audio-buffer.ts:45-58 | One push adds its bytes to the flushed and live audio of its participant, at the end, and to nobody else |
| AudioBuffer.MediasoupAdapter.OnMessage | apps/voiceiq-service/src/sources/adapters/mediasoup.adapter.ts:99-117 | The payload of an encoded packet, and nothing of its header, is pushed as Opus for the participant of its SSRC; a datagram that does not parse, or whose SSRC is unknown, changes nothing |
| AudioBuffer.MediasoupAdapter.Connect | apps/voiceiq-service/src/sources/adapters/mediasoup.adapter.ts:93-96 | Connecting enters the consumers of the tap into the SSRC map, over what was registered before |
| AudioBuffer.LastConsumerCounts | apps/voiceiq-service/src/sources/adapters/mediasoup.adapter.ts:93-96 | Of several consumers with one SSRC the last one counts |
| AudioBuffer.UnlistedStays | apps/voiceiq-service/src/sources/adapters/mediasoup.adapter.ts:93-96 | An SSRC that the tap does not list is looked up as before |
| AudioBuffer.EncodedIsRouted | apps/voiceiq-service/src/sources/adapters/mediasoup.adapter.ts:99-113 | The encoding of any valid packet is handed on exactly if its SSRC is mapped to a non-empty id: its payload, for that participant |
| AudioBuffer.OthersAreDropped | apps/voiceiq-service/src/sources/adapters/mediasoup.adapter.ts:100-101 | A datagram that is the encoding of no packet is dropped |
| AudioBuffer.TableAfter | apps/voiceiq-service/src/sources/adapters/mediasoup.adapter.ts:99-137 | The SSRC table stays while datagrams arrive, takes late consumers one by one, and is forgotten on disconnect |
| AudioBuffer.TableAfterConnect | apps/voiceiq-service/src/sources/adapters/mediasoup.adapter.ts:93-96 | Connecting enters the consumers of the tap, the last one with an SSRC winning, and leaves other entries alone |
| AudioBuffer.AudioIsConserved | apps/voiceiq-service/src/sources/adapters/mediasoup.adapter.ts:94-136 | For any sequence of connects, datagrams, late consumers and disconnects, flushed windows followed by the live buffer of a participant are, byte for byte and in order, the payloads of the packets that arrived encoded under an SSRC of theirs |
| AudioBuffer.AdapterBounds | apps/voiceiq-service/src/sources/adapters/mediasoup.adapter.ts:99-117 | On that path a live buffer has fewer than 90,000 bytes and a flushed window at least 90,000 |
| Aggregator.AggregateWindows | apps/voiceiq-service/src/scoring/aggregator.ts:43-73 | Each dimension is the recency-weighted mean of its scores rounded half up to a tenth, and the composite the weighted sum of these dimensions, rounded the same way; no windows give zeros |
| Aggregator.WeightsClosedForm | apps/voiceiq-service/src/scoring/aggregator.ts:82-87 | For every number of windows, one included, the weights are 2(i+1)/(n(n+1)), positive, strictly rising, and sum to 1 |
| Aggregator.WeightedSumIsMean | apps/voiceiq-service/src/scoring/aggregator.ts:56-59 | The weighted sum is the mean of the scores in which window i counts i+1 times |
| Aggregator.ScoresStayInRange | apps/voiceiq-service/src/scoring/aggregator.ts:43-73 | Scores from 0 to 100 give dimensions and composite from 0 to 100 |
| Aggregator.RoundingErrorIsSmall | apps/voiceiq-service/src/scoring/aggregator.ts:61-70 | The two roundings together move the composite by at most 0.1 |
| Aggregator.RoundKeepsOrder | apps/voiceiq-service/src/scoring/aggregator.ts:61 | Rounding keeps order |
| Aggregator.RoundingIs | apps/voiceiq-service/src/scoring/aggregator.ts:61 | Rounding gives the one value with n tenths for which ten times the argument lies in [n - 1/2, n + 1/2): ties go up |
| Aggregator.RisingIsGreatest | apps/voiceiq-service/src/scoring/aggregator.ts:10-14 | Rearrangement inequality for the linear weights: the non-decreasing order has the greatest weighted sum |
| Aggregator.FallingIsLeast | apps/voiceiq-service/src/scoring/aggregator.ts:10-14 | And the non-increasing order the least |
| Aggregator.ImprovementPays | apps/voiceiq-service/src/scoring/aggregator.ts:10-14 | Among all orders of the same window scores the published dimension is greatest for the non-decreasing one and least for the non-increasing one |
| Aggregator.ImprovementPaysOverall | apps/voiceiq-service/src/scoring/aggregator.ts:64-70 | Among all orders of the same scores a session that never falls in any dimension has the greatest published composite, and one that never rises in any the least |
| Migrations.MigrationRunner.RunMigrations | apps/server/src/core/database/run-migrations.ts:176-210 | Whichever queries fail, a run leaves the database as it was, or seeded with a prefix of the missing files applied; it succeeds only with all of them, and does so if no query fails |
| Migrations.MigrationRunner.SeedLedgerFromLegacyIfNeeded | apps/server/src/core/database/run-migrations.ts:58-106 | Seeds an empty ledger with exactly the first files of the list, as many as there are legacy entries, in one transaction or not at all, and refuses when there are more entries than files |
| Migrations.MigrationRunner.ApplySqlFile | apps/server/src/core/database/run-migrations.ts:119-138 | Every statement takes effect in the open transaction as it runs; all of them and the ledger row are committed, or the rollback leaves nothing of them |
| Migrations.RunsConverge | apps/server/src/core/database/run-migrations.ts:176-210 | After any number of failed runs and one successful one the database and the ledger are those of a single clean run, whatever later runs do |
| Migrations.RunKeepsGoal | apps/server/src/core/database/run-migrations.ts:196-203 | No run, failed anywhere, changes where a clean run would end |
| Migrations.NothingLeftToDo | apps/server/src/core/database/run-migrations.ts:196-203 | After a clean run a further run, failed or not, changes nothing |
| Migrations.CommitsMissingOnce | apps/server/src/core/database/run-migrations.ts:196-203 | A run commits exactly the statements of the missing files, whole, each once and in list order, and adds just the files that have statements to the ledger |
| Migrations.SeedingEntersFirst | apps/server/src/core/database/run-migrations.ts:90-96 | After seeding file i of the list is in the ledger if and only if i is below the number of legacy entries; the ledger holds nothing else and nothing has run |
| Migrations.CleanRunAppends | apps/server/src/core/database/run-migrations.ts:176-210 | A clean run appends exactly the chunks of the files that are neither seeded nor in the ledger: chunk i of file j stands where those of the files before j leave off, and nothing else is added |
| Migrations.SeedOnlyOnce | apps/server/src/core/database/run-migrations.ts:62-67 | Seeding never applies again, also when a run stopped right after it |
| Migrations.UnseedableNeverRuns | apps/server/src/core/database/run-migrations.ts:84-88 | With more legacy entries than files no run succeeds or changes anything |
| IlikeEscape.ChainIsPerCharacter | apps/server/src/shared/sql/ilike-escape.ts:4-6 | The three replacements in a row equal one escape per special character: none touches what an earlier one inserted |
| IlikeEscape.EscapedMatchesItself | apps/server/src/shared/sql/ilike-escape.ts:2-6 | Under the LIKE rules of section 9.7.1 of the PostgreSQL manual the escaped string matches exactly the raw string, up to case |
| IlikeEscape.EscapedPrefix | apps/server/src/modules/search/services/search-users.service.ts:33 | Followed by `%` it matches exactly the texts that begin with it |
| IlikeEscape.EscapedContains | apps/server/src/modules/search/services/search-users.service.ts:32 | Wrapped in `%` it matches exactly the texts that contain it |
| IlikeEscape.EscapedIsWellFormed | apps/server/src/shared/sql/ilike-escape.ts:4-6 | Escaped text never ends in a dangling escape, and leaves what follows it well formed or not as it was |
| RateLimit.Limiter.ConsumeRateLimit | apps/server/src/core/rate-limit/consume-rate-limit.ts:19-37 | The counter after the call, the answer and the retry delay, for a live and an expired key |
| RateLimit.LifetimeHolds | apps/server/src/core/rate-limit/consume-rate-limit.ts:24-27 | The lifetime that a call begins holds exactly the calls of the following window |
| RateLimit.FirstCallsAllowed | apps/server/src/core/rate-limit/consume-rate-limit.ts:33 | In each lifetime exactly the first `limit` calls are allowed |
| RateLimit.SlidingWindowBound | apps/server/src/core/rate-limit/consume-rate-limit.ts:15-18 | For any request times, a span as long as the window allows at most twice the limit |
| RateLimit.BoundIsReached | apps/server/src/core/rate-limit/consume-rate-limit.ts:15-18 | And that bound is reached for every limit and window |
| RouteGuard.RedirectsEnd | apps/client/src/proxy.ts:127-255 | For every path and every login, guest and onboarding status, at most two redirects lead to a page that is served |
| RouteGuard.TwoRedirectsIff | apps/client/src/proxy.ts:141-190 | Two are taken exactly by full accounts on the retired landing page or, before onboarding, in the trial |
| RouteGuard.AnonymousStays | apps/client/src/proxy.ts:136-223 | The page on which a visitor ends, for every path: `/` for the retired page, `/try` for a match room, `/login` for any other protected page, and otherwise the page itself |
| RouteGuard.GuestStays | apps/client/src/proxy.ts:347-402 | The same for a guest: protected and sign-in pages lead to `/try`, or to `/try/complete` once the trial is used up |
| RouteGuard.MemberStays | apps/client/src/proxy.ts:182-245 | The same for a full account: marketing, sign-in, trial and setup pages lead to `/home` after onboarding; before it those and all protected pages lead to `/profile-setup` |
| RouteGuard.UnknownStays | apps/client/src/proxy.ts:182-231 | A session whose guest status is unknown is sent away only from the retired page and, when onboarded, from setup |
| RouteGuard.MatchRoomIs | apps/client/src/proxy.ts:309-317 | A match room is one non-empty path segment below `/space` other than `search` |
| RouteGuard.AnonymousEnds | apps/client/src/proxy.ts:164-223 | A visitor who is not logged in ends on a protected page if and only if the path is protected and passes for a static file or API path |
| RouteGuard.GuestEnds | apps/client/src/proxy.ts:347-402 | A confirmed guest ends on a protected page other than a match room if and only if the same holds of the path |
| RouteGuard.MemberEnds | apps/client/src/proxy.ts:182-245 | A full account that is onboarded never ends on the marketing, sign-in, trial or setup pages, and one that is not never on a protected page but setup, with the same exception |
| RouteGuard.BlockedIsProtected | apps/client/src/proxy.ts:76-79 | Every guest-blocked route is a protected one, so the three results above cover it |
| RouteGuard.StaticSuffixBypasses | apps/client/src/proxy.ts:259-268 | The exception is not empty: for every session the guard passes the path `/u/node.js`, which lies below a guest-blocked route |
| RouteGuard.ProfilesAreGuarded | apps/server/src/modules/profile/lib/username.ts:1-13 | But no user name, of 3 to 30 letters, digits and underscores, makes a profile path pass for a static file; so visitors and guests never end on a profile |
| TapIndex.HoldsLiveTaps | apps/rtc-service/src/modules/voiceiq/voiceiq-tap.service.ts:183-191 | After any run of creations, transport closes, releases and room releases the table and the index agree, and a tap is in the set of a room exactly if it was created there and nothing has ended it since |
| TapIndex.RoomReleaseIsExact | apps/rtc-service/src/modules/voiceiq/voiceiq-tap.service.ts:212-220 | Releasing a room removes all its taps and no other |
| TapIndex.WithoutKeepsAgreement | apps/rtc-service/src/modules/voiceiq/voiceiq-tap.service.ts:65-71 | Removing any taps keeps the agreement, and leaves no empty set |
| TapIndex.VoiceIqTapService.TransportClosed | apps/rtc-service/src/modules/voiceiq/voiceiq-tap.service.ts:188-191 | The close handler removes one tap from both maps, also when it is already gone |
| TapIndex.VoiceIqTapService.ReleaseTap | apps/rtc-service/src/modules/voiceiq/voiceiq-tap.service.ts:222-246 | Releasing removes exactly that tap, whether or not the close handler fires inside the release |
| TapIndex.VoiceIqTapService.ReleaseAllTapsForRoom | apps/rtc-service/src/modules/voiceiq/voiceiq-tap.service.ts:212-220 | The loop over a copy of the set removes exactly the taps of the room although the set shrinks under it |

## Left out

- Start-lock expiry, and in `StartSearch` also the path that proceeds without the lock after three seconds of waiting: mutual exclusion is only claimed when neither happens. `MatchOrchestratorService.StartFindMatch` has that path.
- Time to live of attempts and last-attempt keys (600 s): after it a stuck user who starts again is refused as unavailable instead of being shown the dead proposal. Locks, records and the in-room state do expire, each as its own step; the finalize key expires only in `ProposalConnect`.
- Interleaving inside a handler: each handler is one step, except that a worker job is split at its passes, a waiting start call wakes up to any store, and in `MatchRoom` one room creation is split in two. A user who cancels and searches again during their own job, and a second worker, can therefore only act between passes.
- A connect flag written into a record that was deleted: the script would create a hash with only that field, which no reader accepts. `ProposalConnect` keeps the flags, the store does not.
- The sets of skipped and known peers are inputs of a scan; writing them is not modelled.
- Scoring, compatibility, blocks, guest pool policy, profile snapshots, and the pool by country, city and region: a scan takes the scored list and the pool size as inputs.
- The worker's running flag, queue payload parsing, webhooks, HTTP controllers, sleeps and jitter.
- User ids are ordered by character code; JavaScript compares UTF-16 units, which orders characters outside the basic plane differently but still totally.
- Floating point: scores, durations, weights and rounding are exact reals. `Math.round` is the floor of the argument plus one half.
- ParseAfterSerialize: packets with the padding bit set keep their padding in the payload, because the parser does not remove it.
- Speech recognition, the placeholder transcript text, transcript handlers and delivery by the scoring queue: a flushed window carries its audio instead of the text. A sample rate of zero, for which the source divides by zero, is excluded by its type.
- An empty participant id in the SSRC map counts as unknown, as in the source; sockets, the tap request and its failure are not modelled.
- Splitting a migration file into statements, sorting by locale, the effect of SQL that does not roll back, and a COMMIT whose outcome is unknown to the client. The list of files is fixed between runs and names differ.
- INCR and its EXPIRE are one step in the rate limiter, and the window is positive, as in every policy of the repository.
- Case folding is any function on characters; collations and multi-character folds are not modelled.
- The session cache and fetches of the route guard, security headers, the canonical-host redirect, the `next` parameter, and the framework's matcher that skips some paths before the guard runs.
- mediasoup objects, producer discovery, late joiners and the consumer lists of a tap; tap ids are random and assumed to be drawn once.
- The client, the remaining services, authentication, mail and media: no protocol or algorithm of their own.
