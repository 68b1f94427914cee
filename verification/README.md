# Delibera: a verified model of its protocols

Delibera lets a coordinator put a question to a set of worker agents, collect
their votes through a shared memory, and settle the outcome on a NEAR contract.
This project models the parts of it that carry state over time and proves what
they keep over every run:

- **Settlement** (`coordinator_contract.dfy`, `settlement.dfy`,
  `coordinator_authority.dfy`, `coordinator_rounds.dfy`, `proposal_views.dfy`). The contract's entry points, as
  an object and as functions on its state; the runtime's table of yielded promises,
  kept apart from the contract; and arbitrary interleavings of public calls,
  owner calls, timeouts and callback deliveries. A panicking call is rolled back. Who
  may call at a moment is told from what the owner did before.
  Above that, any number of overlapping coordinator rounds, and what clients
  that page through the views get to see.
- **The off-chain round** (`js_text.dfy`, `workers_env.dfy`, `round_freshness.dfy`,
  `local_round.dfy`, `tally.dfy`). Worker discovery from the environment, dispatch
  with removal of unreachable workers, waiting, the submission record, the vote
  tally, and the step-by-step interleaving of any number of rounds with their
  workers over the shared memory.
- **Juries** (`lcg.dfy`, `jury_shuffle.dfy`, `jury_selection.dfy`). The generator on
  JavaScript numbers (IEEE doubles and a signed 32-bit mask), the in-place shuffle,
  and selection and verification of a jury.
- **The registry** (`registry.dfy`, `registry_effects.dfy`). Ownership, activity and
  single-use signed nonces over all histories of calls, and what every record holds,
  told from the calls that were accepted.
- **Smaller stores** (`session_store.dfy`, `validation_cache.dfy`, `verdicts.dfy`,
  `decision_history.dfy`, `decision_races.dfy`). Each is an object proved against functions on its
  state, and then against a specification that does not mention the state: an
  event log, direct validation, the one run that settles a record, the list of
  everything saved.

SHA-256, base58, Ed25519 verification, JSON parsing and probes of remote endpoints
are parameters. A property that needs an assumption about them (no hash
collision on two inputs, say) states it. Clocks are parameters too.

## What the code does where one might expect otherwise

Each of these has a lemma with the exact condition, and where it helps a concrete case.

- The submission count is compared after truncation to eight bits
  (coordinator-contract/src/lib.rs:267), so 256 submissions pass where 0 are
  expected: `Settlement.TruncatedCountIsAccepted`; the condition is in
  `Settlement.RecordIsAllOrNothing`.
- A manually triggered round goes on after a refused record
  (coordinator-agent/src/monitor/memory-monitor.ts:354-363) and can settle its own
  tally over the submissions another round recorded:
  `CoordinatorRounds.ManualRoundOvertakes`. The finalizing round is the recorder
  exactly if its own record was accepted, which for polling rounds it always was:
  `CoordinatorRounds.FinalizerIsRecorder`.
- `clear_proposal` moves the last key into the gap. An agent can then be offered a
  newer pending proposal before an older one, and a client that pages through the
  views can miss a live one: `ProposalViews.ClearedWalkSkips` gives the run. Paging
  is exact, for any order and any limit, exactly on clean pages:
  `ProposalViews.WalkIsExactly`. Which clears hide the oldest pending proposal is
  said, for any order, by `ProposalViews.ClearHidesOldest`.
- The memory client logs a failed write and returns normally
  (ensue-client/src/ensue-client.ts:179-195), a worker accepts a task at any time
  (worker-agent-1/src/routes/task.ts:24), and rounds may overlap. Another round's
  result can be tallied as this round's if and only if one of four conditions may
  fail: the worker has no task left when the round begins, its reset lands, its
  result lands, and no other round resets or dispatches it meanwhile:
  `RoundFreshness.AllFourAreNeeded`. Under these four nothing else matters:
  `RoundFreshness.TallyIsFreshExactlyWhenCompleted`. A failed worker counts as
  done (coordinator-agent/src/monitor/memory-monitor.ts:841); what is read for it is
  never from the round.
- A late first approval can turn an approved tally down, because a tally without
  any vote is approved: `Tally.FirstApprovalCanReject`. A quorum approves every
  tally exactly if it is not positive: `Tally.QuorumZeroAlwaysApproves`. Sums of
  values are exact up to magnitudes of 2^53 units and no further, and independent of
  their order up to one unit more: `Tally.SumsAreExactUpTo53Bits`,
  `Tally.OrderOfValuesMattersBeyond`.
- The generator's documentation gives an unsigned mask; the code's mask is signed.
  Both agree modulo 2^32: `Lcg.GeneratorIsExact`. The generator's parity alternates,
  so the choices at odd positions are all even or all odd. All orders of a pool are
  drawn, over all seeds, exactly for pools of at most three candidates:
  `JuryCoverage.OddChoicesShareParity`, `JuryCoverage.EveryOrderIsDrawnUpToThree`.
- `updateRecord` is documented not to resurrect terminal records
  (coordinator-agent/src/x402/verdict-store.ts:82-85); it does exactly when told to:
  `VerdictSpec.TerminalSurvivesMerge`. Its only caller never does:
  `Deliberations.RecordsSettleOnce`. Nothing checks that a generated id is new:
  `VerdictSpec.OnlyNewIdsLoseNothing`.
- DIDs may hold NUL bytes, and then two (DID, nonce) pairs can share a nonce key:
  `RegistryHistory.PairsCollide`. What that does to replay protection is said by
  `RegistryHistory.ReplayProtectionIsExact`; `RegistryHistory.UnusedPairRefused` is
  a run in which a pair never used is refused.
- A failed read at cold start followed by a save can replace a stored history:
  `HistoryRuns.UnreadHistoryIsOverwritten` says exactly when. A read of an empty
  cache that resolves after a save has committed sets the cache back, and saves that
  overlap drop entries: `HistoryRaces.LateReadDropsEntry` gives a run,
  `HistoryRaces.KeptExactlyWhenNoStaleJob` the exact condition. List writes landing
  out of order leave the stored list behind the cache:
  `HistoryRaces.StoredHasAllExactlyWhenItIsTheCache`.

## Model

| member | source | states |
|---|---|---|
| CoordinatorContract.Contract.StartCoordination | coordinator-contract/src/lib.rs:182-244 | accepted only with a manifesto, a config of at most 10000 bytes and an id left to hand out; the new proposal is in Created, with no submissions, under the next id; a refusal changes nothing |
| CoordinatorContract.Contract.RecordWorkerSubmissions | coordinator-contract/src/lib.rs:248-303 | the nullifier loop equals the all-or-nothing specification: the batch is appended in order under one time stamp, or nothing changes |
| CoordinatorContract.Contract.CoordinatorResume | coordinator-contract/src/lib.rs:306-346 | hands the runtime the proposal's yield and the result exactly if caller, state, config hash and result hash all pass; the contract state is untouched |
| CoordinatorContract.Contract.ReturnCoordinationResult | coordinator-contract/src/lib.rs:350-388 | a resumed callback finalizes, a failed one times out, whatever the state before; an absent proposal is ignored; no other proposal changes |
| CoordinatorContract.Contract.ClearProposal | coordinator-contract/src/lib.rs:542-546 | owner only; exactly that proposal leaves the map and the last key of the key vector takes its place |
| CoordinatorContract.Contract.RegisterCoordinator | coordinator-contract/src/lib.rs:514-530 | owner only and only with an approved codehash |
| Nullifier.OneMoreInput | coordinator-contract/src/lib.rs:274-294 | the search through the growing list hits exactly if the input repeats a stored or an earlier incoming id, and then the whole batch is repetitive |
| Settlement.StepIsGood | coordinator-contract/src/lib.rs:182-388 | whatever event happens, proposals and yields stay wired one to one, and each proposal makes one of eight moves; a timeout or a delivery of its yield that is due takes effect; only the owner clearing it takes one away |
| Settlement.HeldUntilCleared | coordinator-contract/src/lib.rs:542-546 | a stored proposal stays stored up to a later moment if and only if the owner has not cleared it in between |
| Settlement.RunIsConsistent | coordinator-contract/src/lib.rs:182-388 | in every reachable world: the config hash is the hash of the config, a result is present exactly when Finalized, workers are distinct, counts agree modulo 256, and a proposal is terminal exactly when its yield has been delivered |
| Settlement.StatesMoveInOrder | coordinator-contract/src/lib.rs:197-388 | one event moves a proposal only Created to WorkersCompleted to Finalized, or from a live state to TimedOut; new ones appear in Created under the next id |
| Settlement.ProposalsOnlyMoveForward | coordinator-contract/src/lib.rs:197-388 | between any two moments a proposal's terms are fixed, recorded submissions and terminal proposals never change, and a cleared id never comes back |
| Settlement.SettlesAtMostOnce | coordinator-contract/src/lib.rs:350-388 | at most one event of a run takes a given proposal to a terminal state |
| Settlement.SettlesExactlyOnDelivery | coordinator-contract/src/lib.rs:350-388 | an event settles a stored proposal if and only if it delivers its yield and that was resumed or timed out; it is then Finalized with the data of the resume, or TimedOut |
| Settlement.TimeoutFiresExactly | coordinator-contract/src/lib.rs:372-377 | a pending yield comes to be timed out if and only if the event is its timeout |
| Settlement.RecordedBy | coordinator-contract/src/lib.rs:248-303 | stored submissions are those of one earlier accepted record, in its order |
| Settlement.ResumedByFirst | coordinator-contract/src/lib.rs:306-346 | a resumed yield carries the argument of the first accepted resume; a pending one has seen none |
| Settlement.FinalizedProvenance | coordinator-contract/src/lib.rs:248-388 | a finalized result is the argument of the first accepted resume, made after an accepted record and before the one settling callback; each by a coordinator approved at that moment (`CoordinatorAuthority.ApprovedExactly`), with both hashes matching |
| Settlement.PendingResumeDecides | coordinator-contract/src/lib.rs:306-388 | an accepted resume that finds its yield pending fixes the outcome, whatever follows |
| Settlement.FiredTimeoutDecides | coordinator-contract/src/lib.rs:350-388 | once the timeout has fired first the proposal can only end TimedOut, even if a later resume is accepted |
| Settlement.FirstResumeOutcome | coordinator-contract/src/lib.rs:306-388 | the first accepted resume finalizes its proposal if and only if it came before the timeout fired |
| Settlement.RecordIsAllOrNothing | coordinator-contract/src/lib.rs:248-303 | a record is accepted exactly from an approved coordinator for a Created proposal with a count equal modulo 256 and distinct workers; it then stores the batch in order, with the exact count exactly below 256 inputs; otherwise the whole world is unchanged |
| Settlement.RecordedAtMostOnce | coordinator-contract/src/lib.rs:248-303 | no proposal is recorded twice |
| Settlement.TruncatedCountIsAccepted | coordinator-contract/src/lib.rs:265-272 | 256 distinct submissions are accepted where none is expected |
| Settlement.OverfullRecordIsAccepted | coordinator-contract/src/lib.rs:182-303 | on a fresh deployment, five calls lead to such a record being accepted |
| CoordinatorAuthority.ApprovedByLastDecision | coordinator-contract/src/lib.rs:508-536 | in every run a codehash is approved exactly if the last decision about it by the owner of that moment was an approval |
| CoordinatorAuthority.RegisteredByLast | coordinator-contract/src/lib.rs:514-530 | an account is registered exactly by its last registration as owner with a codehash approved then, with that checksum and codehash |
| CoordinatorAuthority.ApprovedExactly | coordinator-contract/src/lib.rs:618-633 | an account may record and resume exactly if its last registration named a codehash about which the owner's last decision was an approval |
| CoordinatorAuthority.OwnerFollowsTransfers | coordinator-contract/src/lib.rs:599-602 | the owner is the deployer or whom the owner of the moment last transferred to |
| CoordinatorAuthority.ManifestoIsLastSet | coordinator-contract/src/lib.rs:159-171 | the manifesto is the last text the owner set, of at most 10000 bytes |
| CoordinatorAuthority.StartedExactly | coordinator-contract/src/lib.rs:182-244 | in every run a start is accepted exactly with a manifesto set before, a config within the limit, an id left and an unused yield; it stores every field as called under the next id, and otherwise changes nothing |
| CoordinatorAuthority.ResumedExactly | coordinator-contract/src/lib.rs:306-346 | in every run a resume is accepted exactly from an approved account for a recorded proposal with the hash of its config and of the result; it changes no more than a pending yield |
| CoordinatorRounds.PollingRoundRecorded | coordinator-agent/src/monitor/memory-monitor.ts:597-603 | a polling round that goes on to the tally has itself made the accepted record |
| CoordinatorRounds.RoundStep | coordinator-agent/src/monitor/memory-monitor.ts:322-425 | how each action moves a round: the record call takes it to the tally, unless it is a polling round and the call was refused or its reply lost; giving up or resuming ends it |
| CoordinatorRounds.CallsInFields | coordinator-agent/src/monitor/memory-monitor.ts:322-425 | a round records its own proposal with what its list submits, and resumes with its config hash, the text of its tally and the hash of that; in no other phase does it call |
| CoordinatorRounds.FinalizedFromRounds | coordinator-agent/src/monitor/memory-monitor.ts:210-220 | a finalized result was sent by some round's first accepted resume, after some round's accepted record |
| CoordinatorRounds.FinalizerIsRecorder | coordinator-agent/src/monitor/memory-monitor.ts:354-363 | however polling and manual rounds overlap, the finalizing round is the recorder if and only if its own record call was accepted; for polling rounds it always is |
| CoordinatorRounds.ManualRoundOvertakes | coordinator-agent/src/monitor/memory-monitor.ts:354-425 | a run in which a manual round's approval is finalized over the rejection a polling round recorded |
| CoordinatorRounds.SettledCountMatches | coordinator-agent/src/monitor/memory-monitor.ts:322-425 | in every run, if the recorder finalized, tallied the list it recorded and found the results unchanged, the finalized result decodes to a tally counting exactly the recorded submissions if and only if every worker present could be identified, as slash-free DIDs assure |
| CoordinatorRounds.FinalizedCountIsExpected | coordinator-contract/src/lib.rs:265-294 | if moreover its list has the length the proposal expects, the finalized worker count is the expected one |
| ProposalViews.WalkIsExactly | coordinator-contract/src/lib.rs:401-430 | for any duplicate-free order and any limit, paging from one past the last id lists every match once in order if and only if nothing matches, or the limit's low 32 bits are not zero and every page ends above all earlier and below all later matches |
| ProposalViews.MatchesInOrder | coordinator-contract/src/lib.rs:401-445 | matching is by start id and state alone and goes along the key vector |
| ProposalViews.PageIsTheBeginning | coordinator-contract/src/lib.rs:401-430 | a page is the first matches, as many as the low 32 bits of the limit say, or without a limit as are stored |
| ProposalViews.ReachableWalkIsExactly | coordinator-contract/src/lib.rs:401-430 | so in every reachable state, with any number of clears |
| ProposalViews.WalkIsExact | coordinator-contract/src/lib.rs:401-430 | over ascending ids, exactly if the limit's low 32 bits are not zero or nothing matches |
| ProposalViews.SinglesExact | coordinator-contract/src/lib.rs:401-430 | paging one by one is exact if and only if the matching ids are stored in ascending order |
| ProposalViews.OrderWithoutClears | coordinator-contract/src/lib.rs:197-236 | without clears the key vector is 1, 2, ..., current id, and these are the stored ids |
| ProposalViews.OldestPendingFirst | coordinator-agent/src/monitor/memory-monitor.ts:490-510 | without clears the first pending entry is the oldest pending proposal, and the list is empty exactly when none is pending |
| ProposalViews.FinalizedPageIsFull | coordinator-contract/src/lib.rs:457-470 | in every reachable state the page of finalized results has one entry for every id on it although the cut precedes the filter |
| ProposalViews.ClearKeepsAscending | coordinator-contract/src/lib.rs:542-546 | clearing keeps the order ascending exactly when it hits one of the last two keys |
| ProposalViews.KeysAreListed | coordinator-contract/src/lib.rs:197-236 | in every run, cleared or not, the key vector lists exactly the stored ids, once each |
| ProposalViews.ClearHidesOldest | coordinator-contract/src/lib.rs:439-445 | after a clear in any order, disturbed before or not, the first pending entry is not the oldest exactly if another pending one left is below the one that now comes first |
| ProposalViews.FirstClearHidesOldest | coordinator-contract/src/lib.rs:439-445 | from an ascending order, exactly if the last key is pending, none before the cleared place is, and one strictly between them is |
| ProposalViews.ClearedWalkSkips | coordinator-contract/src/lib.rs:401-445 | a run of three starts and a clear of the first after which 3 is listed before the pending 2 and paging one by one misses 2 |
| Lcg.GeneratorIsExact | coordinator-agent/src/vrf/flow-vrf.ts:64-84 | for every seed and length no product or sum is rounded, every state fits 32 bits and agrees modulo 2^32 with the documented recurrence |
| Lcg.RoundsToNearest | coordinator-agent/src/vrf/flow-vrf.ts:81 | rounding to a double goes to the nearest multiple of the spacing, from halfway to the even one, for either sign |
| Lcg.SpacingFits | coordinator-agent/src/vrf/flow-vrf.ts:81 | the spacing is a power of two, and as fine as 53 bits allow |
| Lcg.IndexFoldsResidue | coordinator-agent/src/vrf/flow-vrf.ts:80-84 | the drawn index depends on the residue up to sign |
| Lcg.StepIsInjective | coordinator-agent/src/vrf/flow-vrf.ts:80-84 | the step is injective modulo 2^32 |
| Lcg.StatesNeverMerge | coordinator-agent/src/vrf/flow-vrf.ts:74-84 | two seeds are in the same state modulo 2^32 after any number of steps exactly if they started so |
| Lcg.PublishedNumbersCollide | coordinator-agent/src/vrf/flow-vrf.ts:74-84 | two published numbers drive the same states exactly when they agree modulo 2^32 - 1 |
| JuryShuffle.FisherYatesShuffle | coordinator-agent/src/vrf/flow-vrf.ts:74-88 | the in-place loop on a copy equals the arrangement by the drawn choices; the pool is unchanged |
| JuryShuffle.ArrangePlaceByPlace | coordinator-agent/src/vrf/flow-vrf.ts:80-84 | place i receives the candidate at the chosen place, which receives the one from place i; the places below go on with the remaining choices alone, those above stay |
| JuryShuffle.DrawnFromDocumented | coordinator-agent/src/vrf/flow-vrf.ts:74-84 | the choice at place k of n is the absolute value of the signed documented state after n - k steps from the seed's remainder, modulo k + 1, for seeds of either sign |
| JuryShuffle.ArrangePermutes | coordinator-agent/src/vrf/flow-vrf.ts:80-84 | every arrangement is a permutation and fixes the places above the loop index |
| JuryShuffle.ChoicesAreReadBack | coordinator-agent/src/vrf/flow-vrf.ts:80-84 | equal orders come from equal choices |
| JuryShuffle.ShuffleIsFair | coordinator-agent/src/vrf/flow-vrf.ts:80-84 | for distinct candidates, choice vectors map one to one onto exactly the permutations of the pool |
| JurySelection.SeedSurvivesText | coordinator-agent/src/vrf/flow-vrf.ts:60-78 | the decimal text of a beacon number parses back to it |
| JurySelection.JuryIsDistinct | coordinator-agent/src/vrf/flow-vrf.ts:97-119 | a jury is selected exactly for sizes 1 to the pool's, and holds that many distinct members of the pool |
| JurySelection.JuryBeginsTheShuffle | coordinator-agent/src/vrf/flow-vrf.ts:114-120 | the jury is the beginning of the shuffled pool, published with the decimal text of its number |
| JurySelection.SmallerJuryIsPrefix | coordinator-agent/src/vrf/flow-vrf.ts:97-119 | from one seed a smaller jury begins a larger one |
| JurySelection.VerificationReproduces | coordinator-agent/src/vrf/jury-selector.ts:65-72 | verifying with the published seed gives the selected jury |
| JurySelection.VerificationSlices | coordinator-agent/src/vrf/jury-selector.ts:65-72 | verification fails exactly on malformed seed text, and else slices the shuffle, negative and excessive sizes included |
| JurySelection.SeedPoints | coordinator-agent/src/vrf/flow-vrf.ts:78 | the first point of the seed text is dropped and no other |
| JuryCoverage.VectorsSize | coordinator-agent/src/vrf/flow-vrf.ts:80-84 | there are n! choice vectors, hence n! orders |
| JuryCoverage.OddChoicesShareParity | coordinator-agent/src/vrf/flow-vrf.ts:80-84 | for every seed and pool length the choices at the odd positions have one parity |
| JuryCoverage.MixedParityIsNeverDrawn | coordinator-agent/src/vrf/flow-vrf.ts:74-88 | an order whose choices at two odd positions differ in parity is drawn by no seed |
| JuryCoverage.EveryOrderIsDrawnUpToThree | coordinator-agent/src/vrf/flow-vrf.ts:74-88 | every permutation of a distinct pool is drawn by some published number if and only if the pool has at most three candidates |
| RoundFreshness.RunKeepsInv | coordinator-agent/src/monitor/memory-monitor.ts:663-854 | every interleaving of rounds and workers keeps tasks, status and result cell of a worker in step with a round, if its reset and result land and no other round touches it |
| RoundFreshness.TallyIsFreshExactlyWhenCompleted | worker-agent-1/src/workers/task-handler.ts:37-97 | after any past and however rounds overlap, if a worker has no task left when a round begins, its reset and result land and no other round touches it, the result tallied from it is this round's exactly when the status seen was completed; every other write may be lost |
| RoundFreshness.AllFourAreNeeded | coordinator-agent/src/monitor/memory-monitor.ts:663-783 | from the initial state, some run tallies another round's result as completed if and only if one of those four conditions is not asked for |
| RoundFreshness.TasksGoOn | worker-agent-1/src/workers/task-handler.ts:37-97 | each step of a task moves it on and writes its own cell exactly if the write lands |
| RoundFreshness.DispatchSends | coordinator-agent/src/monitor/memory-monitor.ts:663-783 | a dispatch hands the worker the task if delivered; without a reply the worker counts as unreachable and its status is set idle if that lands |
| RoundFreshness.RoundsGoOn | coordinator-agent/src/monitor/memory-monitor.ts:663-960 | the phases of a round: all reset before dispatch, all dispatched before waiting, the unreachable not awaited, each ended status and each result noted as read |
| RoundFreshness.RoundsWait | coordinator-agent/src/monitor/memory-monitor.ts:663-960 | out of its turn no action of a round does anything: nobody is dispatched before all are reset, nothing is read before everybody awaited was seen ended, and an empty list is never read |
| RoundFreshness.OthersStay | coordinator-agent/src/monitor/memory-monitor.ts:663-854 | an action changes its own round only, and the cells of the worker it names only |
| SharedKeys.ExtractInverts | coordinator-agent/src/monitor/memory-monitor.ts:334-337 | the id is recovered from a worker's result key exactly if it has no slash |
| SharedKeys.ExtractsLeftmost | coordinator-agent/src/monitor/memory-monitor.ts:334-337 | the extracted id is the one between the fixed parts of the leftmost match |
| SharedKeys.ExtractsNothing | coordinator-agent/src/monitor/memory-monitor.ts:334-337 | nothing is extracted exactly if nothing matches |
| SharedKeys.CellsAreSeparate | shared/src/constants.ts:57-65 | two workers' cells coincide only for the same worker and field |
| JsText.SplitUndoesJoin | coordinator-agent/src/monitor/memory-monitor.ts:161-170 | splitting a join at a separator none of the parts holds gives the parts back |
| JsTextFacts.JoinUndoesSplit | coordinator-agent/src/monitor/memory-monitor.ts:161-170 | joining the parts of any text gives the text back |
| JsTextFacts.TrimTakesSpaceOnly | coordinator-agent/src/monitor/memory-monitor.ts:161-170 | trimming takes off both ends all white space and nothing else |
| WorkersEnv.GetWorkerRecordsFromEnv | coordinator-agent/src/monitor/memory-monitor.ts:152-199 | the loop equals the specification entry by entry, empty entries and empty ids dropped |
| WorkersEnv.EntriesApart | coordinator-agent/src/monitor/memory-monitor.ts:156-190 | commas separate entries; one entry is trimmed, and dropped if empty or without an id |
| WorkersEnv.BarForms | coordinator-agent/src/monitor/memory-monitor.ts:163-175 | an entry with bars gives id, address and CVM id in this order, further parts ignored |
| WorkersEnv.ColonForms | coordinator-agent/src/monitor/memory-monitor.ts:176-184 | an entry `id:port` is a worker on this machine under that port |
| WorkersEnv.ParsersAgree | coordinator-agent/src/routes/coordinate.ts:165-173 | on every non-empty value both parsers list the same ids, once empty ones are dropped |
| WorkersEnv.PrintParseRoundTrip | coordinator-agent/src/monitor/memory-monitor.ts:152-199 | a non-empty list survives printing and parsing if and only if every record is well formed |
| Tally.CollectResults | coordinator-agent/src/monitor/memory-monitor.ts:908-928 | the first loop keeps, in order, exactly what is there and parses |
| Tally.CountVotes | coordinator-agent/src/monitor/memory-monitor.ts:930-945 | the second counts approvals, rejections and votes, sums the values with each addition rounded to a double, and throws exactly on a null result |
| Tally.AggregateResults | coordinator-agent/src/monitor/memory-monitor.ts:868-960 | the method computes the specified tally of the ballots of the listed workers |
| Tally.TallyInFields | coordinator-agent/src/monitor/memory-monitor.ts:892-948 | in the fields of the parsed results: approved and rejected count the listed places whose `vote`, or else `option`, says so; there are votes exactly if one of these is not empty; the decision follows, and it throws exactly on a null result |
| Tally.SumsGoOn | coordinator-agent/src/monitor/memory-monitor.ts:941-945 | without votes the values are added in order, each sum rounded |
| Tally.TallyMeaning | coordinator-agent/src/monitor/memory-monitor.ts:930-948 | approved, rejected and other add up to the worker count, at most the listed ones; with votes and no quorum Approved means more than half of all listed; with a quorum, at least that many |
| Tally.SumsAreExactUpTo53Bits | coordinator-agent/src/monitor/memory-monitor.ts:941-945 | sums of values are exact on all tallies up to a magnitude bound if and only if the bound is within 2^53 |
| Tally.OrderOfValuesMattersBeyond | coordinator-agent/src/monitor/memory-monitor.ts:941-945 | permuted values have equal sums on all tallies up to a magnitude bound if and only if the bound is within 2^53 + 1 |
| Tally.OrderDoesNotMatter | coordinator-agent/src/monitor/memory-monitor.ts:930-948 | permuted ballots give the same counts and decision, and the same aggregated value with votes or within that bound |
| Tally.WorkerOrderDoesNotMatter | coordinator-agent/src/monitor/memory-monitor.ts:892-948 | the same for permuted worker lists |
| Tally.ApprovalsAreMonotone | coordinator-agent/src/monitor/memory-monitor.ts:930-948 | turning one Rejected into Approved never turns an approved tally down |
| Tally.FirstApprovalCanReject | coordinator-agent/src/monitor/memory-monitor.ts:930-948 | an approval where a result was missing turns Approved into Rejected exactly if it is the first vote and more than one approval is needed |
| Tally.QuorumZeroAlwaysApproves | coordinator-agent/src/monitor/memory-monitor.ts:947-948 | a quorum approves every tally exactly if it is not positive |
| LocalRound.WorkerList.TriggerWorkers | coordinator-agent/src/monitor/memory-monitor.ts:663-783 | refuses IronClaw dispatch without a secret; otherwise removes in place exactly the workers that share a DID with a failed dispatch |
| LocalRound.LostExactly | coordinator-agent/src/monitor/memory-monitor.ts:663-775 | a DID is lost exactly if a request to a worker of that DID failed, which goes out to HTTP addresses only, and outside local mode to IronClaw workers only |
| LocalRound.WithoutIsOrderly | coordinator-agent/src/monitor/memory-monitor.ts:776-783 | removal keeps order and multiplicity of everyone else |
| LocalRound.WaitForWorkers | coordinator-agent/src/monitor/memory-monitor.ts:819-862 | true exactly if the list is not empty and a single poll saw everybody completed or failed |
| LocalRound.ReadResultsWithRetry | coordinator-agent/src/monitor/memory-monitor.ts:803-813 | the first of three reads that misses no key, else the third |
| LocalRound.NobodyDropped | coordinator-agent/src/monitor/memory-monitor.ts:338-354 | as many submissions as workers means one of every worker, in order |
| LocalRound.SubmissionInFields | coordinator-agent/src/monitor/memory-monitor.ts:334-350 | a worker submits exactly a result that is there and parses; under the id in the result, or else the one in the key, with the hash of the result text |
| LocalRound.RecordMeansEveryWorker | coordinator-contract/src/lib.rs:265-294 | an accepted record for a proposal expecting the list's length means every listed worker contributed one readable result under its hash, and no worker is listed twice |
| LocalRound.FinalCountIsExpected | coordinator-agent/src/monitor/memory-monitor.ts:868-960 | if the results do not change before the second read, the tally counts exactly the expected workers |
| LocalRound.TriggerLocalCoordination | coordinator-agent/src/monitor/memory-monitor.ts:242-400 | a round finishes exactly under the stated conditions; the awaited, announced, snapshotted and recorded list is the reachable part of the discovered one in order, and the tally runs over it too if the snapshot reads back |
| LocalRound.RoundInFields | coordinator-agent/src/monitor/memory-monitor.ts:242-400 | the conditions of a round in terms of its settings: the first `maxWorkers` of those discovered, the overriding minimum, the list that is tallied |
| LocalRound.CountsAgree | coordinator-agent/src/monitor/memory-monitor.ts:338-354 | a tally that does not throw counts at least as many workers as are submitted, and as many exactly if all are identified |
| RegistryContract.Registry.RegisterWorkerInner | registry-contract/src/lib.rs:209-250 | accepted exactly with deposit, prefix and, for a known DID, from its account or the admin; the new record is active and belongs to the caller, every other stays |
| RegistryContract.Registry.RegisterCoordinator | registry-contract/src/lib.rs:125-171 | the same for coordinators, with the worker bounds checked; each field of the stored record is that of the call |
| RegistryContract.Registry.UpdateWorkerEndpoint | registry-contract/src/lib.rs:255-272 | exactly for the account or the admin, and then changes the endpoint alone |
| RegistryContract.Registry.DeactivateWorker | registry-contract/src/lib.rs:275-287 | exactly for the account or the admin; the worker is inactive then, nothing else changes |
| RegistryContract.Registry.DeactivateCoordinator | registry-contract/src/lib.rs:384-398 | the same for coordinators |
| RegistryContract.Registry.DeactivateWorkerByController | registry-contract/src/lib.rs:301-357 | needs a nonce, a known worker with a key, an unspent nonce key and a valid signature; spends exactly that nonce key and leaves the worker inactive, its other fields and every other record as they were; or changes nothing |
| RegistryHistory.RecordsPersist | registry-contract/src/lib.rs:125-398 | over any history: stored records stay stored, in order; the admin keeps what it owns; spent nonces stay spent |
| RegistryHistory.OwnedByFirstOrAdmin | registry-contract/src/lib.rs:209-250 | a worker sits under its own key and belongs to the caller of the one call that first stored it, or to the admin |
| RegistryHistory.CoordinatorOwnedByFirstOrAdmin | registry-contract/src/lib.rs:125-171 | the same for coordinators |
| RegistryHistory.ReactivationIsPaid | registry-contract/src/lib.rs:209-287 | an inactive record becomes active only by a deposit-paying registration from its account or the admin |
| RegistryEffects.WorkerFollowsCalls | registry-contract/src/lib.rs:184-357 | in every history a worker's record is that of its last accepted registration, with the endpoint it was last moved to, and active exactly if not switched off since |
| RegistryEffects.CoordinatorFollowsCalls | registry-contract/src/lib.rs:125-398 | the same for coordinators, worker bounds included |
| RegistryEffects.SpentExactly | registry-contract/src/lib.rs:301-357 | a nonce key is spent exactly by the accepted signed deactivations |
| RegistryEffects.DeactivationTakesEffect | registry-contract/src/lib.rs:301-357 | a signed deactivation leaves its worker stored, inactive, otherwise unchanged, and every other record alone; inactive it stays until a paid registration of it |
| RegistryEffects.NewKeysGoLast | registry-contract/src/lib.rs:125-250 | a record stored for the first time goes to the end of its list; the order of the others never changes |
| RegistryEffects.ListedInOrder | registry-contract/src/lib.rs:429-445 | the active lists follow that order |
| RegistryHistory.StatsMatchLists | registry-contract/src/lib.rs:429-464 | after any history the active lists hold exactly the active records, once each, and the counts are their lengths |
| RegistryHistory.NonceSpentOnce | registry-contract/src/lib.rs:301-357 | a (worker, nonce) pair deactivates by signature at most once, re-registrations included |
| RegistryHistory.PairsCollide | registry-contract/src/lib.rs:374-381 | two pairs give the same key text exactly if equal or one DID continues the other past a NUL byte |
| RegistryHistory.NulFreePairsAreSeparate | registry-contract/src/lib.rs:319-381 | on NUL-free DIDs nonce key (given no hash collision) and signed message name one pair |
| RegistryHistory.ReplayProtectionIsExact | registry-contract/src/lib.rs:301-357 | whatever bytes the DIDs hold, without a digest collision in the run a validly signed pair is refused if and only if an earlier accepted deactivation used that pair or one overlapping it past a NUL byte |
| RegistryHistory.NulFreeReplayProtection | registry-contract/src/lib.rs:301-357 | without NUL bytes, if and only if that very pair has been used |
| RegistryHistory.UnusedPairRefused | registry-contract/src/lib.rs:301-381 | a run in which a validly signed pair that was never used is refused |
| SessionClass.SessionStore.Register | ensue-mcp-server/src/session-store.ts:95-103 | accepted exactly below capacity, even for a present id; a present id keeps its place |
| SessionClass.SessionStore.Touch | ensue-mcp-server/src/session-store.ts:84-88 | updates the activity of a present id and returns its entry; absent ids change nothing |
| SessionClass.SessionStore.Remove | ensue-mcp-server/src/session-store.ts:105-109 | returns and removes the entry, keeping the order of the others |
| SessionClass.SessionStore.Sweep | ensue-mcp-server/src/session-store.ts:118-130 | deleting while iterating removes exactly the expired ids, returns them in insertion order and closes their transports |
| SessionLog.LastActivityIsLatest | ensue-mcp-server/src/session-store.ts:84-103 | the stored activity is the time of the latest touch or accepted registration, whatever the clock does |
| SessionLog.PresentExactlyWhenAlive | ensue-mcp-server/src/session-store.ts:82-130 | under a non-decreasing clock an id is present exactly if some accepted registration of it has since been neither removed nor swept while idle |
| SessionLog.SweptExactlyWhenIdle | ensue-mcp-server/src/session-store.ts:118-130 | a sweep returns exactly the living sessions without activity within the time to live |
| SessionLog.NeverOverCapacity | ensue-mcp-server/src/session-store.ts:72-103 | after any sequence of operations the size is within the limit |
| SessionLog.ListedByAge | ensue-mcp-server/src/session-store.ts:95-130 | ids are listed by when they last came in; touching or registering again does not move one |
| SessionHandlers.EveryReachableStateIsConsistent | ensue-mcp-server/src/index.ts:235-331 | with any number of handshakes between capacity check and registration, the store is within its limit and holds exactly the serving transports, each under its own id |
| SessionHandlers.RequestsReachTheirOwnTransport | ensue-mcp-server/src/index.ts:244-277 | a request goes to an existing transport exactly if that one serves the named session; a new one only for initialize below capacity |
| SessionHandlers.AnswersExactly | ensue-mcp-server/src/index.ts:244-275 | 400 exactly without a served session and without initialize, 503 exactly for initialize at capacity, a new transport exactly for initialize below it |
| SessionHandlers.RequestKeepsAlive | ensue-mcp-server/src/index.ts:244-260 | a request to a served session marks it active and changes nothing else |
| SessionHandlers.StoreFollowsLog | ensue-mcp-server/src/index.ts:244-331 | the store moves by the operations of its log and no others, so what is proved of the log holds of the server |
| SessionHandlers.SweepClosesIdle | ensue-mcp-server/src/index.ts:320-331 | a sweep closes exactly the transports of the sessions idle for longer than allowed |
| SessionHandlers.CloseEnds | ensue-mcp-server/src/index.ts:292-297 | a close callback ends its transport, and its session if it is still being served |
| SessionHandlers.RaceIsLostAtCapacity | ensue-mcp-server/src/index.ts:278-291 | a checked handshake is refused exactly if the store is full by then, and disturbs nobody |
| SessionHandlers.LateCloseIsHarmless | ensue-mcp-server/src/index.ts:292-297 | the close callback of a refused or swept transport leaves the store as it is |
| ValidationCache.WorkerFilter.FilterValidatedWorkers | coordinator-agent/src/routes/coordinate.ts:73-113 | the three loops return the cached valid workers followed by the passing probes, and write the cache in settling order, rejected probes last |
| ValidationTruth.ClassifiedExactlyOnce | coordinator-agent/src/routes/coordinate.ts:80-88 | every listed worker is let through, turned away or probed, and only one of these |
| ValidationTruth.OneWorker | coordinator-agent/src/routes/coordinate.ts:80-88 | a worker is known for five minutes after its check, and probed otherwise |
| ValidationTruth.KnownInOrder | coordinator-agent/src/routes/coordinate.ts:80-113 | workers known to be valid come in the order of the list |
| ValidationTruth.PassingInOrder | coordinator-agent/src/routes/coordinate.ts:90-113 | and so do the probed ones, each with the answer of its own place |
| ValidationTruth.ReturnedExactlyWhenChecked | coordinator-agent/src/routes/coordinate.ts:73-113 | a worker is returned exactly if a check younger than the time to live, or else a probe of this call, found it valid |
| ValidationTruth.DirectExactlyWhenBeliefsAreTrue | coordinator-agent/src/routes/coordinate.ts:73-113 | for distinct DIDs the result equals direct validation as a multiset if and only if what the filter believes of every worker is true |
| ValidationCache.WorkerFilter.Registered | coordinator-agent/src/routes/coordinate.ts:382 | registering a worker drops its entry and no other |
| ValidationTruth.CacheHoldsLastWrite | coordinator-agent/src/routes/coordinate.ts:92-110 | through interleaved calls and registrations the cache holds a DID exactly if the last change about it entered a check, and then that check |
| ValidationTruth.CacheIsInvisible | coordinator-agent/src/routes/coordinate.ts:73-113 | after any honest history of checks and registrations, a call on distinct DIDs returns what direct validation would if no health changed since a check still in use |
| ValidationTruth.WritesAreHonest | coordinator-agent/src/routes/coordinate.ts:92-110 | a call adds only entries that record what its probes found |
| ValidationTruth.NotProbedAgain | coordinator-agent/src/routes/coordinate.ts:80-110 | while its answer and the checks since are young, a probed worker, valid or not, is not probed again, exactly unless it has registered anew and not been checked since |
| VerdictStoreClass.VerdictStore.CreateRecord | coordinator-agent/src/x402/verdict-store.ts:65-80 | stores a pending record under the generated id |
| VerdictStoreClass.VerdictStore.UpdateRecord | coordinator-agent/src/x402/verdict-store.ts:86-102 | unknown ids change nothing; otherwise the merge is stored and returned |
| VerdictStoreClass.VerdictStore.ListRecords | coordinator-agent/src/x402/verdict-store.ts:114-116 | the stable sort of the records by falling creation time |
| VerdictSpec.NewestFirstIsStableSort | coordinator-agent/src/x402/verdict-store.ts:114-116 | that listing is a permutation, newest first, in creation order within a millisecond |
| VerdictSpec.StableSortIsUnique | coordinator-agent/src/x402/verdict-store.ts:114-116 | no other listing has these properties |
| VerdictSpec.OnlyNewIdsLoseNothing | coordinator-agent/src/x402/verdict-store.ts:65-80 | creating a record leaves every stored one unchanged exactly if the id is new or names that same record |
| VerdictSpec.TerminalSurvivesMerge | coordinator-agent/src/x402/verdict-store.ts:82-102 | an update takes a terminal record back to pending exactly if it says so |
| VerdictSpec.MergeIsFieldwise | coordinator-agent/src/x402/verdict-store.ts:86-102 | a merge takes the named fields and leaves the others; the completion time is set with the first terminal status |
| VerdictSpec.StampFollowsStatus | coordinator-agent/src/x402/verdict-store.ts:92-99 | the first completion time stands, and time stamp and status stay in step exactly if the update does not resurrect |
| Deliberations.RecordsSettleOnce | coordinator-agent/src/x402/x402-deliberate.ts:144-232 | however requests, runs and timers interleave, a terminal record, a decided race and a given reply never change |
| Deliberations.CompletedAtExactlyWhenTerminal | coordinator-agent/src/x402/verdict-store.ts:92-99 | a completion time is set exactly while the record is terminal |
| Deliberations.InlineRepliesAgree | coordinator-agent/src/x402/x402-deliberate.ts:157-172 | an inline 200 or 422 agrees in code and record with every later retrieval |
| Deliberations.PolledExactlyWhenTimerWins | coordinator-agent/src/x402/x402-deliberate.ts:147-187 | the buyer is told to poll exactly if the timer fired while the deliberation was pending |
| Deliberations.TerminalRecordComesFromARun | coordinator-agent/src/x402/x402-deliberate.ts:202-232 | a terminal record is its creation record merged with the outcome of a run |
| Deliberations.RecordFollowsEvents | coordinator-agent/src/x402/x402-deliberate.ts:94-232 | in every run a record is there exactly if it was posted; it is as posted until its run ends, and from then on completed with that tally and proposal id, or failed with the error or the text for a missing tally |
| Deliberations.RepliesSayWhatIsStored | coordinator-agent/src/x402/x402-deliberate.ts:147-187 | a reply to poll names id, payment and creation time of the stored record; an inline one is that record under the code of its status |
| Deliberations.RaceIsDecided | coordinator-agent/src/x402/x402-deliberate.ts:147-172 | a race is decided exactly by the end of the run or the timer, whichever comes first |
| Deliberations.OneRunSettles | coordinator-agent/src/x402/x402-deliberate.ts:202-232 | no second run settles the same deliberation |
| ProfileClientClass.ProfileClient.GetAllDecisions | worker-agent/src/storacha/profile-client.ts:359-390 | the layers are read in order and what is found is cached, except the fallback |
| ProfileClientClass.ProfileClient.GetRecentDecisions | worker-agent/src/storacha/profile-client.ts:354-357 | the end of that list as `slice` takes it |
| ProfileClientClass.ProfileClient.SaveDecision | worker-agent/src/storacha/profile-client.ts:395-427 | cache, fallback, vault, pointer and shared list after a save, for every pattern of failures |
| ProfileClientClass.ProfileClient.AppendKnowledgeNote | worker-agent/src/storacha/profile-client.ts:472-502 | the same for notes, without a cap |
| HistoryRuns.ProcessSeesAllSaves | worker-agent/src/storacha/profile-client.ts:354-427 | from a cached list on, the process sees that list and everything saved, cut to the last entries, whatever fails |
| HistoryRuns.ReadsInLayers | worker-agent/src/storacha/profile-client.ts:359-390 | a read takes the first layer that has something, in the order cache, shared list, vault, local identity, fallback, and caches all but the last |
| HistoryRuns.SavesInFields | worker-agent/src/storacha/profile-client.ts:395-427 | where a saved list goes: cache, fallback without a vault, vault and pointer, shared list, each as its write lands |
| HistoryRuns.SavesKeepTheLastEntries | worker-agent/src/storacha/profile-client.ts:354-427 | after a first save and any reads and saves, the list is the last entries of what that save read followed by everything saved |
| HistoryRuns.RestartLosesUnlandedSaves | worker-agent/src/storacha/profile-client.ts:359-427 | a restart that can read the shared list takes it up as of the last landed save; exactly the saves since are lost |
| HistoryRuns.ColdStartRecoversVault | worker-agent/src/storacha/profile-client.ts:370-386 | a restart that cannot read it recovers the last vaulted list |
| HistoryRuns.UnreadHistoryIsOverwritten | worker-agent/src/storacha/profile-client.ts:395-424 | for every configuration, a first save of a restarted process extends the stored list exactly if the list was read, or the vault or else the local identity gave what the save would have retained of it |
| HistoryRuns.UnreadDecisionsAreLost | worker-agent/src/storacha/profile-client.ts:395-424 | for decisions without a vault: exactly if the list was read or is empty, and otherwise only the new entry is left |
| HistoryProtocol.StepsCommute | worker-agent/src/storacha/profile-client.ts:359-427 | reads, saves and write completions only move lists about and extend them: any reading of lists that goes with extending goes with every step |
| HistoryRaces.ListsFollowLines | worker-agent/src/storacha/profile-client.ts:359-427 | after any interleaving, every list in cache, stores and jobs is a first list followed by the entries of the saves on its line and no others, cut to the last ones |
| HistoryRaces.SoloSaveIsSave | worker-agent/src/storacha/profile-client.ts:395-427 | a save with nothing else under way is the save of the client, for every pattern of failures |
| HistoryRaces.CommitsOnce | worker-agent/src/storacha/profile-client.ts:395-401 | a save commits once |
| HistoryRaces.KeptExactlyWhenNoStaleJob | worker-agent/src/storacha/profile-client.ts:359-401 | every entry stays in the cache from its commit on if and only if no read or save begun before a commit sets the cache after it, except with a list that had the entry |
| HistoryRaces.WarmKeptExactlyWhenSequential | worker-agent/src/storacha/profile-client.ts:395-401 | with the cache set from the start, if and only if each save begins after every earlier commit |
| HistoryRaces.StoredHasAllExactlyWhenItIsTheCache | worker-agent/src/storacha/profile-client.ts:418-424 | while all entries are kept, the stored list has them all if and only if it is the list in the cache |
| HistoryRaces.LateReadDropsEntry | worker-agent/src/storacha/profile-client.ts:359-401 | a run in which two saves do not overlap and a read that resolves late drops the first one's entry from cache and stored list |
| HistoryRuns.RecentIsExact | worker-agent/src/storacha/profile-client.ts:354-357 | the recent entries are those of the whole history exactly if at most 20 are asked for or exist; a limit of zero returns everything kept |

## Left out

- Hashing, signatures, encryption, base58 and JSON: parameters without properties of their own.
- HTTP servers and clients, NEAR RPC, name resolution, AI calls, Storacha, Lit and Filecoin uploads, archiving and logging.
- `migrate`, `force_migrate` and `force_reinitialize` replace the whole state; runs are per deployment.
- Worker registration on the coordinator contract: plain map updates, nothing reads them in the protocol.
- Public-key decoding at registration: a malformed controller key panics before anything is stored.
- Gas, storage cost and the resume call's own failure inside the runtime beyond losing to a fired timeout.
- The timeout heuristics of the local contract client, which identify success by an id that grew or a state that changed; a round's start is an input here, and nothing is proved from them.
- CoordinatorRounds.FinalizerIsRecorder: record and resume calls made by hand, outside any round, are not among the actions.
- Settlement.RunIsConsistent: the runtime's rule that a yield identifier is never handed out twice is part of the model, not proved.
- RoundFreshness.TallyIsFreshExactlyWhenCompleted: push workers only, each listed once in a round, and reads return what was last written; workers in polling mode and proxy votes write results without a status. An error raised after the result write does not occur in the model.
- LocalRound.TriggerLocalCoordination: writes to the shared memory appear as what later reads return; the status resets are in RoundFreshness.
- Tally.CountVotes: finite doubles without overflow; values and ids of other JSON types are left out; a truthy vote of another type counts like any other text.
- JurySelection.SeedSurvivesText: hexadecimal and white-space forms of seed text, which the beacon never produces.
- ValidationCache.WorkerFilter.FilterValidatedWorkers: one call at a time on the object; overlapping calls enter through the history of cache entries in ValidationTruth.CacheIsInvisible.
- Deliberations.RecordsSettleOnce: generated ids are taken to be new; nothing in the store checks it.
- Stored histories read back as lists; other JSON values are treated as absent. The preferences and manifesto sections follow the same pattern without appending.
- Session idle timers and request bodies: the sweep is an event at any time; parsing a request is not modelled.
