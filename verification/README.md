# Agent Barn: verified models of the control plane

Agent Barn runs AI agents for Organizations. This project models the stateful parts of its control
plane in Dafny and proves what they promise. Each module follows one component:

- `Wakes`, `WakeReports`: splitting an Agent's calls into wakes with a relational query, and the reports built on it.
- `RuntimeDigest`, `DigestCoverage`: the code closure behind the runtime digest, and what it covers.
- `MemoryBank`, `MemoryProvenance`, `MemorySweeps`, `MemoryView`: one Organization's memory bank as a protocol, where its content comes from, the purge and retag loops over it, and the paginated viewer.
- `PurgeLease`: leasing of deletion tombstones by concurrent workers.
- `MemoryKeys`: issuing and revoking the memory credential.
- `AgentSizes`, `AgentSizeSteps`: the size catalog with its single default and per-Organization allowed sets.
- `LlmBudget`, `Thresholds`, `BudgetAlerts`: spend limits, their mirror on proxy keys, threshold settings and the alert automaton.
- `Webhooks`, `WebhookDeliveries`: revision-fenced acceptance and generation-fenced dispatch, and what they mean for deliveries.
- `RestorePoint`: capture and restore of an Agent's volume.
- `Regex`, `Denylist`, `DetailGrammar`, `ProvisioningErrors`: the safe detail of a provisioning failure, and the patterns it must match.
- `Common`: sequences shared by the others.

Protocols are state machines: a `Step` datatype, a `Next` function in which a refused step changes
nothing, and `Run` over any sequence of steps. Each locked transaction is one step; commit, rollback,
crashes, unreachable services and the clock are arguments of steps. Code that updates rows in place is a
class; where the module has a protocol, the methods are proved to be steps of it. Where the
program iterates a set, the model picks elements with `:|`, so its contracts hold for every order.
Money and token sums are reals, instants are integers, UUIDs and hashes are opaque values.

Some promises do not hold as stated, and the exact conditions are proved:

- A memory key can be forgotten: when committing it, revoking it and requeueing it all fail in one call.
  Over whole runs exactly those keys are forgotten (`MemoryKeys.KeysAlwaysAccounted`,
  `MemoryKeys.TripleFailureExample`).
- The repository delete does not re-check the default flag, so a default switch after the service's check
  leaves no default (`AgentSizes.RowDeleteKeepsInvIff`, `AgentSizes.DeleteRaceExample`). The catalog
  invariant is therefore proved with check and delete as one step.
- A purge ends cleanly although documents remain when the backend answers as if nothing were stored
  (`MemorySweeps.PurgeAgent`, `MemorySweeps.DeniedExample`).
- A tombstone need not become claimable within a day while workers act; it does within a day and a lease
  (`PurgeLease.ClaimableDespiteWorkers`, `PurgeLease.DayIsNotEnough`).
- A budget alert repeats when it was published and could not be recorded, and only then
  (`BudgetAlerts.PublishedIncrease`, `BudgetAlerts.RepeatsIffUnsaved`).
- A captured volume cannot always be restored: validation refuses paths that read as absolute on Windows,
  which capture lets through (`RestorePoint.ApplyYieldsCaptured`, `RestorePoint.RootedCaptureExample`).
- The viewer's 2,000 pages do not reach memories beyond them (`MemoryView.ViewerShowsEachOnce`).

## Model

| member | source | states |
|---|---|---|
| `Wakes.SplitIsRunSplit` | api/domains/activity/repository.py:130-147 | The recursive split cuts the calls into contiguous non-empty runs, in order and without loss, with neighbours inside a run at most 300 s apart and consecutive runs more than 300 s apart. |
| `Wakes.RunSplitUnique` | api/domains/activity/repository.py:130-147 | There is only one such decomposition, so that description defines a wake completely. |
| `Wakes.IndexIsRank` | api/domains/activity/repository.py:149-156 | On rows sorted by time, the peers a RANGE frame adds to the running sum carry marker 0: the sum is the number of markers up to and including the row. |
| `Wakes.PipelineIsSplit` | api/domains/activity/repository.py:130-171 | Gap marker, running sum and GROUP BY return exactly the maximal runs: group k is the k-th run, and no other group number occurs. |
| `Wakes.IndexIsOrderFree` | api/domains/activity/repository.py:130-156 | A row's wake number is determined by its timestamp and the bag of rows: the number of distinct instants up to it that have no call in the 300 s before them. |
| `Wakes.TieOrderIrrelevant` | api/domains/activity/repository.py:130-171 | However tied timestamps are ordered, there are the same wakes holding the same rows. |
| `WakeReports.RowBounds` | api/domains/activity/repository.py:157-171 | A wake's interval and prompt bounds enclose its calls and are attained, and its models are exactly theirs. |
| `WakeReports.RowOrderFree` | api/domains/activity/repository.py:157-171 | Every aggregate of a wake depends only on the bag of its calls. |
| `WakeReports.ReportIsOrderFree` | api/domains/activity/repository.py:128-183 | The wake report is equal for any two sorted arrangements of the same calls. |
| `WakeReports.IntervalsApart` | api/domains/activity/repository.py:157-171 | Each wake starts more than 300 s after any earlier wake ended, so the reported intervals are pairwise disjoint. |
| `WakeReports.InsideOwnWakeOnly` | api/domains/activity/repository.py:366-376 | The EXISTS predicate of the call list holds of a call exactly when the trigger of the call's own wake is the one asked for. |
| `WakeReports.FindCallsIsOwnWake` | api/domains/activity/repository.py:354-376 | The calls listed under a trigger are the calls of the wakes with that trigger, in order. |
| `WakeReports.CallHasOneTrigger` | api/domains/activity/repository.py:172-190 | Every call is listed under exactly one of the two triggers. |
| `WakeReports.UserCallsArePrompted` | api/domains/activity/repository.py:172-190 | A call is listed under USER exactly when an inbound message fell within two minutes before its burst or during it, and under BACKGROUND exactly when none did. |
| `WakeReports.OutboundIsIgnored` | api/domains/activity/repository.py:172-183 | Messages that are not inbound change neither the listed calls nor the totals of a trigger. |
| `WakeReports.TriggersPartitionCalls` | api/domains/activity/repository.py:354-376 | The USER and BACKGROUND lists partition the window's calls, multiplicities included. |
| `WakeReports.BreakdownMatchesCalls` | api/domains/activity/repository.py:268-293 | Calls, spend and prompt tokens summed over a trigger's wakes equal those summed over its listed calls. |
| `WakeReports.BreakdownSumsToTotals` | api/domains/activity/repository.py:193-219 | The per-trigger figures add up to the window totals. |
| `WakeReports.CadenceAtLeastGap` | api/domains/activity/repository.py:295-310 | A cadence is reported exactly when there are two wakes, and is then at least 300 s. |
| `WakeReports.MedianIsMiddle` | api/domains/activity/repository.py:295-310 | The median of an odd number of gaps is the middle one, of an even number the mean of the two middle ones. |
| `RuntimeDigest.ResolveComplete` | api/domains/agents/runtime_digest.py:98-111 | A chain of re-exports inside the package of at most eight hops resolves to the module at its end. |
| `RuntimeDigest.ResolveSound` | api/domains/agents/runtime_digest.py:98-111 | Whatever resolves does so along such a chain. |
| `RuntimeDigest.ReachIsLeastFixpoint` | api/domains/agents/runtime_digest.py:136-147 | The intersection of all sets closed under self-calls is itself closed, and below every closed set. |
| `RuntimeDigest.ReachableMethods` | api/domains/agents/runtime_digest.py:166-175 | The worklist terminates with exactly that least fixed point, in whatever order pending names are added. |
| `RuntimeDigest.ClosureIsLeastFixpoint` | api/domains/agents/runtime_digest.py:220-247 | The closure is the least set holding the seeds and closed under 'a referenced name resolves to a definition'. |
| `RuntimeDigest.ProgressOnSeen` | api/domains/agents/runtime_digest.py:222-226 | Skipping a marker already visited keeps the worklist invariant: nothing it would add is missing. |
| `RuntimeDigest.Collect` | api/domains/agents/runtime_digest.py:233-246 | One entry adds exactly the definitions its names resolve to, lists exactly the new ones, and overwrites nothing, in whatever order the names are visited. |
| `RuntimeDigest.VisitLast` | api/domains/agents/runtime_digest.py:221-246 | One iteration keeps the worklist invariant, never drops a key, and either collects a new key or shortens the queue. |
| `RuntimeDigest.CloseOver` | api/domains/agents/runtime_digest.py:220-247 | The worklist terminates with exactly the closure of its seeds, each key mapped to its own definition, for every iteration order. |
| `RuntimeDigest.CollaboratorSeeds` | api/domains/agents/runtime_digest.py:203-218 | The collaborator seeds are the methods reachable from those the assembly calls on each annotated collaborator, in whatever order collaborators are visited. |
| `RuntimeDigest.DiscoverClosure` | api/domains/agents/runtime_digest.py:178-247 | The result is the value the program alone determines: nothing without the entry method, otherwise the closure of assembly and collaborator methods. |
| `DigestCoverage.DiscoveryFollowsReferences` | api/domains/agents/runtime_digest.py:229-246 | Whatever a collected definition refers to is collected: a name its module defines and does not import from the package, and a name it imports along a re-export chain of at most nine modules. |
| `DigestCoverage.DiscoveryHasReasons` | api/domains/agents/runtime_digest.py:220-246 | A collected definition that is not a seed is referred to, in one of these two ways, by a collected one. |
| `DigestCoverage.DiscoveryHoldsDefinitions` | api/domains/agents/runtime_digest.py:197-199 | Each key is mapped to the definition or method it names. |
| `DigestCoverage.DiscoveryHoldsAssembly` | api/domains/agents/runtime_digest.py:188-200 | The entry method is collected, and with a method of the assembly every method it calls on itself. |
| `DigestCoverage.DiscoveryHoldsCollaborators` | api/domains/agents/runtime_digest.py:203-218 | A method the assembly calls on an annotated collaborator is collected, and every method it reaches on itself. |
| `DigestCoverage.SeedsHaveReasons` | api/domains/agents/runtime_digest.py:197-218 | Every seed is a method of the assembly or is reached on a collaborator. |
| `DigestCoverage.InPackageIs` | api/domains/agents/runtime_digest.py:14-14 | A module belongs to the package exactly when its name begins with `api.`. |
| `RuntimeDigest.DiscoveryIsDeterministic` | api/domains/agents/runtime_digest.py:178-247 | Two discoveries on one program return equal mappings. |
| `RuntimeDigest.AscendingUnique` | api/domains/agents/runtime_digest.py:276-289 | Two strictly ascending listings of the same keys are the same sequence. |
| `RuntimeDigest.DigestIsDeterministic` | api/domains/agents/runtime_digest.py:276-289 | Two processes feed the hash the same symbols and dumps in the same order. |
| `DigestCoverage.DigestSeesEveryChange` | api/domains/agents/runtime_digest.py:276-283 | Over the same keys the hash input is the same exactly when every collected definition reads the same. |
| `MemoryBank.Rewrite` | api/domains/agent_memory/gateway_service.py:112-154 | A retain is forwarded whole or refused whole; each forwarded item keeps content and mode, lies in the caller's namespace and in one scope, and carries exactly that scope's tags. |
| `MemoryBank.Forward` | api/domains/agent_memory/gateway_service.py:84-94 | An authenticated retain passes exactly when it is valid, its team items are permitted and the spend gate lets it through, with the refusal of the first check that fails; it is then a step of the protocol that queues exactly the rewritten items. |
| `MemoryBank.WriteOrganizationMemory` | api/domains/agent_memory/gateway_service.py:55-74 | Organization Memory is written exactly by holders of write access, within the content bounds and past the spend gate, as one team document under a new id of the writer's namespace. |
| `MemoryBank.NextKeepsInv` | api/domains/agent_memory/repository.py:29-50 | Every step of authentications, retains, applications, grants, revocations, deletions, retags and purges keeps the namespace, tag, content and grant invariants. |
| `MemoryBank.RunKeepsInv` | api/domains/agent_memory/repository.py:226-298 | So does every run. |
| `MemoryBank.ReadableTags` | api/domains/agent_memory/repository.py:81-115 | The resolved read scopes are the Agent's own tag, the tags of live granted Agents, the team tag exactly under an Organization grant, and never an authorship tag. |
| `MemoryBank.AccessIs` | api/domains/agent_memory/repository.py:81-115 | An authenticated request acts for its own Agent, and may write for the team exactly under a read-write Organization grant. |
| `MemoryBank.RecallIsMayRead` | api/domains/agent_memory/gateway_service.py:147-154 | A request authenticated in one state and answered in another returns exactly the answering state's documents its Agent could read when it was authenticated: own private ones, private ones of live Agents granted to it, team ones under an Organization grant. |
| `MemoryBank.RecallAfterAnyRun` | api/domains/agent_memory/gateway_service.py:35-44 | That holds for every reader, whatever run precedes the authentication and whatever run comes between it and the answer; exactly live, running Agents with memory switched on are authenticated. |
| `MemoryBank.RecalledContentStaysInScope` | api/domains/agent_memory/gateway_service.py:117-130 | Every part of a recalled document was written by its owner in that scope: private and team content never share a document. |
| `MemoryProvenance.ContentHasOrigin` | api/domains/agent_memory/gateway_service.py:112-133 | In every run from an empty bank each stored part was forwarded by its author on an authenticated request, and team content only by an Agent authenticated while it held a read-write Organization grant. |
| `MemoryProvenance.PendingHasOrigin` | api/domains/agent_memory/gateway_service.py:112-133 | The same holds of every write still pending. |
| `MemoryProvenance.ApplyStores` | api/domains/agent_memory/gateway_service.py:112-133 | Applying a pending write appends to its document or replaces its content, as the item asked, stamps its tags, and touches nothing else. |
| `MemoryProvenance.PartsStay` | api/domains/agent_memory/gateway_service.py:112-133 | Over every run, unless a document is replaced or purged its parts stay, in order, before any new ones. |
| `MemoryProvenance.GrantIff` | api/domains/agent_memory/repository.py:226-270 | A grant is created exactly for a live reader, from another live Agent and read-only, or to the team, and at most once per reader and source. |
| `MemoryProvenance.GrantOpens` | api/domains/agent_memory/repository.py:81-115 | A new grant opens exactly what it names to the next request of its reader, for reading and for writing. |
| `MemoryProvenance.RevokedStaysOut` | api/domains/agent_memory/repository.py:272-298 | A revoked grant is gone over every continuation that does not create it again. |
| `MemoryProvenance.DeleteStep` | api/domains/agent_memory/repository.py:29-50 | Deleting an Agent removes its grants in both directions, leaves a tombstone, and leaves its documents to the purge. |
| `MemoryProvenance.RequestBounds` | api/domains/agent_memory/gateway_models.py:50-63 | A retain holds 1 to 20 items, each with 1 to 100,000 characters, an id of at most 1,000 and at most 100 tags. |
| `MemoryBank.DeletedPrivateMemoryUnreachable` | api/domains/agent_memory/repository.py:29-50 | Private memory of a deleted Agent is outside every recall authenticated after the deletion, purged or not. |
| `MemoryBank.RepairKeepsVisibility` | api/domains/agent_memory/retag_shared.py:46-55 | Replacing the Agent tag of a team document by authorship changes no reader's view and no purge ownership. |
| `MemoryBank.OwnedIsNamespace` | api/domains/agent_memory/purge.py:70-99 | Under the invariant the purge filter selects exactly the documents of the Agent's namespace. |
| `MemorySweeps.PurgeOne` | api/domains/agent_memory/purge.py:66-107 | One iteration removes at most the first listed document, never one outside the Agent's namespace, and never trips its namespace and tag guards within the invariant. It ends the purge cleanly exactly on a 404, on an empty page with count zero, or on a truthful listing with nothing left; it goes on exactly when it deleted a document. |
| `MemorySweeps.PurgeAgent` | api/domains/agent_memory/purge.py:62-108 | Under failures, deadlines, malformed pages and lost confirmations a purge removes a prefix of the Agent's documents and touches no other. It ends cleanly exactly when every turn before some turn deletes a document and that turn finds, or claims, nothing left; if something is left then, the backend denied it. Even a backend that ignores the filter cannot make it delete another Agent's document. |
| `MemorySweeps.DeniedExample` | api/domains/agent_memory/purge.py:82-84 | A clean end with a document left: the first listing is answered with 404. |
| `MemorySweeps.PurgeUntilClean` | api/domains/agent_memory/purge.py:62-108 | Undisturbed, n documents need exactly n / 100 + 1 runs (integer division), leaving every other document in place. |
| `MemorySweeps.PurgeIsRun` | api/domains/agent_memory/purge.py:62-108 | At every point of a purge the bank is where a run of that many purge steps of the protocol leads. |
| `MemorySweeps.SharedOfRepaired` | api/domains/agent_memory/retag_shared.py:22-36 | Repairing tags never moves a document in or out of the team listing or within it. |
| `MemorySweeps.PageIsOriginal` | api/domains/agent_memory/retag_shared.py:22-36 | After the documents before the offset were repaired, the page at the offset shows the documents it showed at the start. |
| `MemorySweeps.RetagDocument` | api/domains/agent_memory/retag_shared.py:42-59 | One listed document is repaired exactly when it is legacy; a lost patch leaves it as it was or repaired; any other refusal changes nothing and only happens outside the tag invariant. |
| `MemorySweeps.RetagShared` | api/domains/agent_memory/retag_shared.py:12-60 | The loop terminates. However it ends, failed listings and failed or unconfirmed patches included, exactly the legacy documents among a prefix of the team listing are repaired. When it returns a count it has visited every team document once and the count is the number of legacy ones; within the invariant only the backend can keep it from that. |
| `MemorySweeps.RerunCompletes` | api/domains/agent_memory/retag_shared.py:12-60 | Wherever a run was interrupted, a complete run afterwards ends where an undisturbed one would have. |
| `MemorySweeps.SecondRunChangesNothing` | api/domains/agent_memory/retag_shared.py:12-60 | After a run no legacy document is left and another run changes nothing. |
| `MemorySweeps.RetagIsRun` | api/domains/agent_memory/retag_shared.py:22-60 | At every point of a retag run the bank is where that many retag steps of the protocol lead. |
| `MemorySweeps.RetagKeepsRecall` | api/domains/agent_memory/retag_shared.py:22-60 | At every point of a retag run every request sees exactly the documents it saw before the run, and the bank invariant holds. |
| `MemoryView.SharedQueryValid` | api/domains/agent_memory/view_service.py:53-66 | The query derived for the second list always satisfies the query bounds. |
| `MemoryView.QueryBounds` | api/domains/agent_memory/gateway_models.py:71-78 | A query asks for 1 to 50 memories from an offset of at most 100,000. |
| `MemoryView.PageOfBoth` | api/domains/agent_memory/view_service.py:47-66 | The two answers form the slice [offset, offset + limit) of private followed by shared memories, with the total of both, in every overlap case. |
| `MemoryView.PagesEnumerate` | api/domains/agent_memory/view_service.py:47-66 | Consecutive pages enumerate the list once, in order. |
| `MemoryView.RouteOffsets` | api/domains/agent_memory/routes.py:56-65 | Every page the routes accept gives a valid query, with an offset of at most 99,950. |
| `MemoryView.ScopesDisjoint` | api/domains/agent_memory/view_service.py:68-100 | The two listings hold the Agent's private documents and the team documents, and no document is in both. |
| `MemoryView.ViewerShowsEachOnce` | api/domains/agent_memory/view_service.py:47-100 | The viewer's pages 1 to n show the first n * size memories of the view, each once and in order, with and without an Organization grant; the 2,000 pages the route accepts show all of them exactly when there are at most 2,000 * size. |
| `MemoryView.CheckPage` | api/domains/agent_memory/view_service.py:103-130 | A backend page is accepted unchanged exactly when every row lies in the scope and the counts fit; otherwise it is refused whole. |
| `PurgeLease.ErrorDelayBounds` | api/domains/agent_memory/purge_repository.py:60-80 | Error delays start at 30 s, double with each further failure up to 3600 s, never shrink, and reach the cap at the eighth. |
| `PurgeLease.PurgeTable.BestDue` | api/domains/agent_memory/purge_repository.py:20-45 | Among rows no other transaction has locked, the row found is due and precedes every other due row in claim order; none is found exactly when none is due. |
| `PurgeLease.PurgeTable.Claim` | api/domains/agent_memory/purge_repository.py:20-52 | A claim is a claim step of the protocol on that row; without one it changes nothing. |
| `PurgeLease.PurgeTable.Finish` | api/domains/agent_memory/purge_repository.py:60-80 | Recording a result is a finish step of the protocol. |
| `PurgeLease.ClaimOrderIs` | api/domains/agent_memory/purge_repository.py:30-41 | Rows never tried come first, then failed ones, then clean ones; within a class the longest due, then the lowest id. |
| `PurgeLease.ClaimIff` | api/domains/agent_memory/purge_repository.py:22-52 | A free worker can claim exactly a row whose time has come and whose lease, if any, has run out, and leases it for 600 s. |
| `PurgeLease.RunKeepsInv` | api/domains/agent_memory/purge_repository.py:20-80 | Over every interleaving of claims of any due row, finishes, crashes and clock advances, leases are issued once, expire within 600 s, and next attempts lie within a day. |
| `PurgeLease.LeaseIsExclusive` | api/domains/agent_memory/purge_repository.py:20-52 | In every reachable state at most one worker holds a row's current lease, and an unexpired lease blocks every claim of its row. |
| `PurgeLease.SupersededForever` | api/domains/agent_memory/purge_repository.py:60-66 | A worker whose lease was superseded stays superseded over every continuation of the run. |
| `PurgeLease.LateFinishIsIgnored` | api/domains/agent_memory/purge_repository.py:60-66 | After another worker has claimed the row, whatever else happens, a finish under the old lease changes no row. |
| `PurgeLease.TombstonesSurvive` | api/domains/agent_memory/purge_repository.py:20-80 | No step of any run loses a tombstone. |
| `PurgeLease.ClaimableWithinADay` | api/domains/agent_memory/purge_repository.py:20-80 | From every reachable state each row is claimable after a day in which nobody acts, whatever crashed or failed. |
| `PurgeLease.ClaimableDespiteWorkers` | api/domains/agent_memory/purge_repository.py:20-80 | Whatever workers do meanwhile, a row is due at some point of every stretch of a run that lasts a day and a lease. |
| `PurgeLease.DayIsNotEnough` | api/domains/agent_memory/purge_repository.py:73-77 | A day alone is not enough: a clean finish just before the lease ends leaves a row two days old undue for longer. |
| `PurgeLease.FinishSchedules` | api/domains/agent_memory/purge_repository.py:60-80 | A finish under the current lease schedules the next attempt after the error delay, or hourly for rows staged less than two days ago and daily afterwards; it counts or resets the failures and records the clean sweep. |
| `MemoryKeys.ResolveAccountsIff` | api/domains/agent_memory/key_repository.py:41-85 | A resolve leaves its new key current, queued or confirmed revoked, except exactly when commit, direct revocation and requeueing all fail. |
| `MemoryKeys.ResolveKeeps` | api/domains/agent_memory/key_repository.py:49-62 | A valid key is kept, and nothing happens for an unknown Organization or without a new key from the proxy. |
| `MemoryKeys.ResolveReplaces` | api/domains/agent_memory/key_repository.py:61-75 | A committed new key is current for its Organization, and the one it replaces is queued. |
| `MemoryKeys.ResolveRollsBack` | api/domains/agent_memory/key_repository.py:76-83 | A failed commit leaves the current key; the new one is revoked, or queued, or lost. |
| `MemoryKeys.TripleFailureExample` | api/domains/agent_memory/key_repository.py:76-83 | The exception happens: a first key can be live at the proxy and recorded nowhere. |
| `MemoryKeys.NextKeepsSound` | api/domains/agent_memory/key_repository.py:41-141 | Every step, with rollbacks, partial revocations, lost keys and Organization deletion, keeps the rows consistent and every key attributable. |
| `MemoryKeys.StepKeepsAccounting` | api/domains/agent_memory/key_repository.py:41-141 | No step forgets a key that is accounted for, and none brings back one that is not. |
| `MemoryKeys.KeysAlwaysAccounted` | api/domains/agent_memory/key_repository.py:41-141 | After every run, an issued key is current, durably queued or confirmed revoked if and only if it was not created by a triple failure of the run. |
| `MemoryKeys.HashesAttribute` | api/domains/agent_memory/key_repository.py:143-152 | After every run, triple failures included, every key that was ever current for an Organization that still exists is attributed to it. |
| `MemoryKeys.HashesAreOwned` | api/domains/agent_memory/key_repository.py:143-152 | Only existing Organizations are charged, and only for keys that are, or were, theirs. |
| `MemoryKeys.OrphanExample` | api/domains/agent_memory/key_repository.py:111-122 | A pass that stamps a row while its Organization is being deleted leaves an orphan; the next pass clears it. |
| `MemoryKeys.OrphansAreSettled` | api/domains/agent_memory/key_repository.py:111-122 | Clearing an orphan costs no account and no attribution: its revocation is confirmed and no existing Organization owned it. |
| `MemoryKeys.MemoryKeyRepository.ResolveKey` | api/domains/agent_memory/key_repository.py:41-85 | The method performs that transition, and returns a key exactly when the stored one is valid or a new one was committed. |
| `MemoryKeys.MemoryKeyRepository.Oldest` | api/domains/agent_memory/key_repository.py:123-128 | Among rows no other transaction holds, a batch is full or holds every pending row, and no row left out was tried less recently. |
| `MemoryKeys.MemoryKeyRepository.RevokeBatch` | api/domains/agent_memory/key_repository.py:103-141 | A pass stamps or drops revoked rows by the Organizations it saw, moves failed rows back, clears orphans, and keeps the old rows on a failed commit, while confirmations stand. |
| `MemoryKeys.MemoryKeyRepository.RevokeOldest` | api/domains/agent_memory/key_repository.py:103-141 | The scheduled pass is a full pass of the protocol over the oldest free rows. |
| `MemoryKeys.MemoryKeyRepository.DeleteOrganization` | api/domains/agent_memory/key_repository.py:87-101 | Deletion queues the current key and drops completed rows of the Organization only. |
| `MemoryKeys.StepShortensQueue` | api/domains/agent_memory/key_repository.py:103-141 | No step that does not try a row puts another ahead of it, and a committed full pass that leaves it out moves a whole batch from ahead of it to behind it. |
| `MemoryKeys.NoStarvation` | api/domains/agent_memory/key_repository.py:103-141 | In every run of the protocol with an advancing clock, each of n pending rows is tried before ceil(n / 20) committed full passes in which it is free are over, with rolled-back passes, failures, resolves and Organization deletions in between. |
| `AgentSizes.SwitchedCatalog` | api/domains/agent_sizes/repository.py:180-243 | A default switch clears exactly the old default, makes the size the only one, and swaps the two in the allowed sets. |
| `AgentSizes.NextKeepsInv` | api/domains/agent_sizes/repository.py:117-262 | Every step keeps: exactly one default, enabled, requests within limits, no allowed set storing it, chosen sizes existing. |
| `AgentSizes.RunKeepsInv` | api/domains/agent_sizes/repository.py:117-314 | So every reachable catalog has exactly one default, which is enabled. |
| `AgentSizes.ChosenSizeAlwaysApplies` | api/domains/agent_sizes/lookup.py:40-52 | In every reachable catalog an Agent with a chosen size resolves to it, enabled and allowed or not. |
| `AgentSizes.GuardImpliesConstraint` | api/domains/agent_sizes/service.py:75-109 | The service accepts a change exactly when the table constraints admit it. |
| `AgentSizes.StoredAfterSwap` | api/domains/agent_sizes/repository.py:269-314 | The swap trades the new default for the old in every non-empty stored set and leaves empty ones empty. |
| `AgentSizes.SwitchTakesNothingAway` | api/domains/agent_sizes/lookup.py:61-72 | An Organization that could choose C can choose exactly C plus the new default; one without a stored set just follows the default. |
| `AgentSizes.ChoosableIsAllowedAndEnabled` | api/domains/agent_sizes/lookup.py:61-72 | In every reachable catalog the default is choosable, and any other size exactly when it is enabled and allowed to the Organization. |
| `AgentSizes.ChoiceIsChecked` | api/domains/agent_sizes/lookup.py:71-72 | An Agent is put on a size exactly when it may choose it. |
| `AgentSizes.UpdateSetsWhatItNames` | api/domains/agent_sizes/repository.py:180-243 | An accepted update sets exactly the fields it names, and changes no other size but for the default flag. |
| `AgentSizes.DisableAndEnable` | api/domains/agent_sizes/lookup.py:61-72 | Disabling a size withdraws it from choice and from no allowed set; enabling it again gives it back to the same Organizations. |
| `AgentSizeSteps.CreateIff` | api/domains/agent_sizes/models.py:138-162 | A size is created exactly with values in range, requests within limits, under a new id, and never as the default. |
| `AgentSizeSteps.UpdateIff` | api/domains/agent_sizes/service.py:75-102 | A change is accepted exactly when its fields are in range, merged requests stay within merged limits, and neither the default is disabled nor a disabled size made the default. |
| `AgentSizeSteps.TableRefuses` | api/domains/agent_sizes/models.py:53-76 | The table refuses exactly unknown sizes and violations of its constraints. |
| `AgentSizeSteps.DeleteIff` | api/domains/agent_sizes/service.py:111-126 | A size is deleted exactly when it is not the default and no Agent chose it; only it and its allowed rows go. |
| `AgentSizeSteps.AllowIff` | api/domains/agent_sizes/repository.py:117-168 | An Organization's set is replaced exactly when every size it gains is known and enabled; it then holds what was asked for without the default, and no other set changes. |
| `AgentSizeSteps.ServiceKeepsBounds` | api/domains/agent_sizes/models.py:26-27 | Nothing the service accepts leaves 64,000 millicores or 256 GiB. |
| `AgentSizes.RowDeleteKeepsInvIff` | api/domains/agent_sizes/repository.py:245-262 | The repository delete alone keeps the catalog sound exactly when the size is not the default. |
| `AgentSizes.DeleteRaceExample` | api/domains/agent_sizes/service.py:111-123 | A default switch between the unlocked check and the delete leaves a catalog without a default. |
| `AgentSizes.AgentSizeRepository.SetAllowedSizes` | api/domains/agent_sizes/repository.py:117-168 | Row-by-row removal and addition replaces exactly the Organization's set, without the default; unknown or disabled additions refuse the whole request. |
| `AgentSizes.AgentSizeRepository.SwapDefaultInAllowedSets` | api/domains/agent_sizes/repository.py:269-314 | The loop over Organizations leaves exactly the swapped rows. |
| `AgentSizes.AgentSizeRepository.UpdateSize` | api/domains/agent_sizes/repository.py:180-243 | The update performs the whole transition or leaves the catalog unchanged. |
| `LlmBudget.ResolveLimitIsCap` | api/domains/agents/llm_budget.py:77-89 | Outside credit the resolved limit is the wanted one capped by the Organization's; the source names the rule that decided. |
| `LlmBudget.LoweringChangesNoLimit` | api/domains/agents/llm_budget.py:77-89 | A resolved limit never exceeds the Organization's, and lowering stored rows changes none. |
| `LlmBudget.KeyLimitsOf` | api/domains/agents/llm_budget.py:289-299 | The snapshot holds every Agent's resolved limit and window. |
| `LlmBudget.FitToOrganization` | api/domains/agents/llm_budget.py:314-341 | Exactly the keys whose budget differs from the snapshot and whose push succeeds are rewritten, to the resolved limit; no key of another Agent changes; the count is the number of failed pushes; rows are lowered in any case. |
| `LlmBudget.IncrementalEqualsFull` | api/domains/agents/llm_budget.py:314-357 | From keys that matched the snapshot, rewriting only what moved ends with the same budgets as rewriting all, each the resolved limit and at most the Organization's. |
| `LlmBudget.OutOfStepIsFailed` | api/domains/agents/llm_budget.py:314-341 | After an incremental fit the keys out of step are exactly the failed pushes, in order. |
| `LlmBudget.Reconcile` | api/domains/agents/llm_budget.py:361-381 | Whatever the keys held before, every reachable key of a readable Organization ends with its resolved limit, no other key changes, those of Agents in no group included, one broken Organization stops no other, and the count is the number of keys and Organizations missed. |
| `LlmBudget.StoreDefault` | api/domains/agent_settings/service.py:145-168 | Storing a default leaves keys of Agents with a limit of their own alone, and from keys in step exactly those that moved and could not be pushed end out of step. |
| `Thresholds.SplitJoin` | api/core/config.py:309-314 | Splitting at commas undoes joining. |
| `Thresholds.ParsePrint` | api/core/config.py:309-314 | Reading a printed number gives the number. |
| `Thresholds.BlanksAreStripped` | api/core/config.py:298-301 | Blanks around a number do not matter. |
| `Thresholds.SignIsRead` | api/core/config.py:298-301 | A sign before a number is read. |
| `Thresholds.UnderscoreIsSkipped` | api/core/config.py:298-301 | An underscore between digits is skipped. |
| `Thresholds.OnlyDigitsAreRead` | api/core/config.py:298-301 | What is read as digits begins and ends with one and holds nothing but digits and underscores. |
| `Thresholds.MalformedIff` | api/core/config.py:296-301 | A setting is refused as malformed exactly when one of its parts is no number; a missing or blank one means 80,100. |
| `Thresholds.ValidatedIsValid` | api/core/config.py:291-309 | Numbers are accepted exactly when there is one and all lie in 1..100; the result is those numbers and 100, strictly ascending; a list that already is so validates to itself. |
| `Thresholds.ValidateIsIdempotent` | api/core/config.py:291-314 | For every setting, the stored text reads back as a valid list and validates to itself. |
| `BudgetAlerts.PublishedIncrease` | api/domains/agents/llm_budget.py:414-444 | Within a stretch of one alert key, through unreadable spends, failed publishes and failed saves, whatever is published after a recorded threshold is strictly higher; a threshold repeats only after a failed save. |
| `BudgetAlerts.CrossingIsNewHighest` | api/domains/agents/llm_budget.py:436-444 | A readable check finds a crossing exactly when the highest threshold reached is above what was recorded under its key. |
| `BudgetAlerts.ReachedIsSpentShare` | api/domains/agents/llm_budget.py:437-437 | Under a positive limit exactly the thresholds at or below the spent percentage are reached; under a limit of zero 100 always is. |
| `BudgetAlerts.KeyAfter` | api/domains/agents/llm_budget.py:422-434 | After any run the stored spend, window and limit are those of the last readable check. |
| `BudgetAlerts.RepeatsIffUnsaved` | api/domains/agents/llm_budget.py:403-409 | The same check again publishes again exactly when the first time was not recorded. |
| `BudgetAlerts.FailedPublishIsRetried` | api/domains/agents/llm_budget.py:383-444 | A crossing that was not published, or published and not recorded, stays due through any run of unreadable spends and failures under the same key. |
| `BudgetAlerts.KeyChangeRearms` | api/domains/agents/llm_budget.py:414-444 | In every run, the first readable check after a renewal or a limit change publishes the highest threshold reached, whatever was published before, and records nothing else. |
| `BudgetAlerts.CheckAll` | api/domains/agents/llm_budget.py:383-412 | The sweep updates each Agent's row as one automaton step and reports exactly the crossings recorded; it stops exactly at the first Agent whose published alert could not be recorded, and reaches no later one. |
| `BudgetAlerts.HealthMatchesAlerts` | api/domains/agents/llm_budget.py:268-276 | For valid thresholds EXHAUSTED holds exactly when 100 is the highest reached, WARNING exactly when a lower one is, and the fine state exactly when none is. |
| `Webhooks.NextKeepsInv` | api/domains/agent_webhooks/repository.py:94-267 | Every step of creation, update, retirement, arrival, acceptance, retry, late result and crash keeps the fencing invariant. |
| `Webhooks.RunKeepsInv` | api/domains/agent_webhooks/repository.py:94-267 | So does every run. |
| `Webhooks.OneInvocationPerEvent` | api/domains/agent_webhooks/repository.py:152-192 | In every reachable state one invocation exists per webhook and stored event id. |
| `WebhookDeliveries.RedeliveryIsDuplicate` | api/domains/agent_webhooks/repository.py:152-192 | Whatever happened since a delivery of an event was accepted, accepting another delivery of it stores nothing and dispatches nothing. |
| `WebhookDeliveries.AcceptInserts` | api/domains/agent_webhooks/repository.py:152-192 | An acceptance inserts an invocation exactly for an unchanged webhook and a new event; the row holds the event and its first dispatch starts. |
| `WebhookDeliveries.DeliveryWaits` | api/domains/agent_webhooks/service.py:180-193 | A delivery is let in exactly when the webhook is open and the signature was made with its secret, and then waits unchanged, whatever happens meanwhile. |
| `WebhookDeliveries.ChangeRefusesWaiting` | api/domains/agent_webhooks/repository.py:160-170 | Any change of the webhook refuses the requests verified before it, for good. |
| `WebhookDeliveries.UpdateDecidesArrivals` | api/domains/agent_webhooks/repository.py:94-131 | After an update deliveries are let in by what it changed, the new secret and switch, and by what it left alone. |
| `WebhookDeliveries.StaleEditIsRefused` | api/domains/agent_webhooks/repository.py:106-115 | An edit made against another revision, or of a retired or unknown webhook, changes nothing. |
| `WebhookDeliveries.RetiredForever` | api/domains/agent_webhooks/repository.py:133-150 | A retired webhook stays closed over every continuation, to deliveries and to requests already waiting. |
| `WebhookDeliveries.DispatchHasItsTime` | api/domains/agent_webhooks/repository.py:243-250 | Over every run no retry supersedes a dispatch within two minutes of its start. |
| `WebhookDeliveries.LateRetryStarts` | api/domains/agent_webhooks/repository.py:243-267 | A dispatch that failed, or has not reported for longer, can be retried, under the next generation. |
| `WebhookDeliveries.ReportDecides` | api/domains/agent_webhooks/repository.py:208-226 | The report of the current dispatch makes the row SUBMITTED with its job, or failed without one. |
| `WebhookDeliveries.DispatchEnds` | api/domains/agent_webhooks/service.py:262-279 | A dispatch reports at most once, and a report touches no other row. |
| `Webhooks.OneDispatchPerGeneration` | api/domains/agent_webhooks/service.py:180-233 | No generation of an invocation is dispatched twice, and none beyond the row's own. |
| `Webhooks.JobIsCurrent` | api/domains/agent_webhooks/repository.py:194-226 | A stored job comes from the row's current generation, and is stored exactly when the row is SUBMITTED. |
| `Webhooks.AcceptedUnderSecretInForce` | api/domains/agent_webhooks/service.py:180-208 | Every accepted invocation was verified with the secret in force when it was inserted. |
| `Webhooks.SubmittedIsFinal` | api/domains/agent_webhooks/repository.py:194-267 | Over every continuation of every run rows stay, generations never fall, and a SUBMITTED row never changes. |
| `Webhooks.AgentWebhookRepository.UpdateWebhook` | api/domains/agent_webhooks/repository.py:94-131 | An update is the update step of the protocol, and succeeds exactly on an unretired row of the expected revision. |
| `Webhooks.AgentWebhookRepository.RetireWebhook` | api/domains/agent_webhooks/repository.py:133-150 | Retirement is the retire step of the protocol, under the same condition. |
| `Webhooks.AgentWebhookRepository.AcceptInvocation` | api/domains/agent_webhooks/repository.py:152-192 | Acceptance is the accept step of the protocol: it re-checks the webhook, finds the invocation that already holds the event, or inserts one that holds it and starts its first dispatch. |
| `Webhooks.AgentWebhookRepository.RecordDispatchResult` | api/domains/agent_webhooks/repository.py:194-226 | Recording the result of a dispatch under way is the report step of the protocol. |
| `Webhooks.AgentWebhookRepository.PrepareRetry` | api/domains/agent_webhooks/repository.py:228-267 | A retry is the retry step of the protocol, and succeeds exactly on a failed or stalled invocation. |
| `RestorePoint.ExclusionIsInherited` | api/domains/agents/restore_point_job.py:77-83 | Whatever lies under an excluded path is excluded. |
| `RestorePoint.ExcludedIsListed` | api/domains/agents/restore_point_job.py:77-83 | An excluded path is listed for the runtime or has a listed path as its leading part. |
| `RestorePoint.RuntimesDiffer` | api/domains/agents/restore_point_job.py:35-66 | Each runtime's own boot files are listed for it only, shared ones for both. |
| `RestorePoint.RootedExamples` | api/domains/agents/restore_point_job.py:130-133 | Which paths read as absolute, at every boundary of the check. |
| `RestorePoint.SortFilter` | api/domains/agents/restore_point_job.py:86-95 | Sorting what passes a filter equals filtering what was sorted. |
| `RestorePoint.WalkListsTree` | api/domains/agents/restore_point_job.py:86-95 | The unpruned walk lists exactly the files of the tree, defined by membership in its directories. |
| `RestorePoint.WalkListsOnce` | api/domains/agents/restore_point_job.py:86-95 | It lists no path twice. |
| `RestorePoint.PrunedWalkIsFiltered` | api/domains/agents/restore_point_job.py:86-95 | For every tree and exclusion list the pruned walk yields the unpruned walk's files with excluded paths filtered out, in the same order. |
| `RestorePoint.Capture` | api/domains/agents/restore_point_job.py:98-127 | The archive holds exactly the kept files the safety filter accepts, in walk order, and the counts are right. |
| `RestorePoint.Volume.ApplyArchive` | api/domains/agents/restore_point_job.py:130-182 | An archive is validated whole, absolute paths included, before anything is touched; then the volume holds exactly its files. |
| `RestorePoint.ApplyYieldsCaptured` | api/domains/agents/restore_point_job.py:98-182 | A captured archive is accepted exactly when no file it was meant to keep has a path that reads as absolute; extracting it yields exactly the tree's files that are not excluded and pass the safety filter. |
| `RestorePoint.RootedCaptureExample` | api/domains/agents/restore_point_job.py:107-136 | A file in a top-level directory named `C:` is captured, and the archive that holds it is refused. |
| `RestorePoint.RestoreAndUndo` | api/domains/agents/restore_point_job.py:172-187 | A refused archive changes nothing. The pre-restore backup is accepted exactly when no file worth keeping has a path that reads as absolute, and then leaves exactly the files the volume held before the restore that are not excluded and pass the safety filter. |
| `Denylist.JoinClean` | api/domains/agents/provisioning_errors.py:392-394 | Joining clean texts at a separator creates no denylisted word. |
| `Denylist.SafeMatchIsClean` | api/domains/agents/provisioning_errors.py:377-394 | Every match of a pattern whose pieces are clean and separated at every joint is clean. |
| `DetailGrammar.AxisFits` | api/domains/agents/provisioning_errors.py:111-114 | The axis pattern passes that check and its longest match has 34 characters. |
| `DetailGrammar.QuantityFits` | api/domains/agents/provisioning_errors.py:115-115 | The quantity pattern passes it and its longest match has 33 characters. |
| `DetailGrammar.QuotaFits` | api/domains/agents/provisioning_errors.py:122-123 | The stored quota pattern passes it, never matches the empty text, and its longest match has 484 characters. |
| `DetailGrammar.GrammarIsSafe` | api/domains/agents/provisioning_errors.py:122-139 | Nothing the stored pattern of any category matches is empty, denylisted, or longer than 484 characters. |
| `DetailGrammar.LongestDetail` | api/domains/agents/provisioning_errors.py:122-123 | A quota detail of 484 characters exists. |
| `ProvisioningErrors.GrammarAloneDecides` | api/domains/agents/provisioning_errors.py:377-389 | So the guard accepts a detail exactly when its category's pattern matches it. |
| `ProvisioningErrors.KeysInOrder` | api/domains/agents/provisioning_errors.py:340-341 | Axes are reported in the order of first appearance. |
| `ProvisioningErrors.QuotaRowsReport` | api/domains/agents/provisioning_errors.py:331-347 | The rows are the first three requested axes, each with figures matched for that axis in each section. |
| `ProvisioningErrors.RebuiltReports` | api/domains/agents/provisioning_errors.py:309-374 | A detail is rebuilt exactly when its category's pattern found what it needs, and repeats what was found. |
| `ProvisioningErrors.RowMatches` | api/domains/agents/provisioning_errors.py:344-346 | A printed quota row matches the stored row pattern, which is spelled out independently of the printer. |
| `ProvisioningErrors.LimitMatches` | api/domains/agents/provisioning_errors.py:350-356 | A printed limit detail matches the stored limit pattern. |
| `ProvisioningErrors.RebuiltInGrammar` | api/domains/agents/provisioning_errors.py:331-369 | Every rebuilt quota, limit, RBAC or class-name detail matches the stored pattern of its category. |
| `ProvisioningErrors.RebuiltIsAccepted` | api/domains/agents/provisioning_errors.py:309-369 | It therefore passes the guard unchanged, is clean, and has at most 484 characters. |
| `ProvisioningErrors.CategoryOfCode` | api/domains/agents/provisioning_errors.py:67-79 | Error codes identify their categories. |
| `ProvisioningErrors.StoredErrorReadsBack` | api/domains/agents/provisioning_errors.py:157-191 | A start failure stored as code and detail reads back as the same error, with the rebuilt detail; the lead of the summary is the one part a row does not carry. |
| `ProvisioningErrors.LegacyRow` | api/domains/agents/provisioning_errors.py:184-189 | A row without a code reads as an unclassified failure without detail if it has a message, and as no failure otherwise. |
| `ProvisioningErrors.ReadIsSafeAndStable` | api/domains/agents/provisioning_errors.py:173-191 | Whatever a row holds, what is read from it is in the grammar, clean and bounded, storing that again reads back the same, and a row without a code yields no detail. |
| `ProvisioningErrors.RejectionIsReported` | api/domains/agents/provisioning_errors.py:194-209 | An event's quota rejection, else its limit rejection, is reported unchanged, and nothing else is. |

## Left out

- The database engine, row locking and outbox events; uniqueness constraints appear as preconditions or as refused steps.
- Pagination and ordering of the wake and call lists, the bucket series and the percentiles of the totals other than the cadence: they would only add easy members.
- RuntimeDigest.DiscoverClosure: syntax trees are given by the names, methods, attributes and calls read from them; the extraction itself, docstring stripping and the asset files are not modelled.
- MemoryBank.Forward: how the spend gate decides is a parameter; operation ids, and the health, version and operation endpoints, are not modelled.
- Extraction, ranking and derived observations of the memory backend: a fact is taken to carry its document's tags, and listings are stable.
- MemoryBank.NextKeepsInv: document ids are structured values, so a digest collision is not considered.
- MemorySweeps.PurgeAgent: retains applied while a purge run is under way are not interleaved with its iterations (in the bank protocol each deletion is a step of its own). The task loop around it and `can_purge` are not modelled.
- MemorySweeps.RetagShared: tags outside the three kinds, and pages that are longer than asked for or list other documents, are not modelled.
- MemoryKeys.KeysAlwaysAccounted: a process crash between key creation and commit is the same outcome as a triple failure; a commit whose outcome is unknown is not modelled.
- MemoryKeys.MemoryKeyRepository.ResolveKey: the revocation pass that follows a new key is a step of its own, so a failure of that pass is not reported as a failure of the resolve.
- PurgeLease.LeaseIsExclusive: that a run ends before its lease does depends on HTTP timeouts and is not claimed.
- Size names, their uniqueness and the catalog's sort order; pending-size comparison; audit events.
- Float rounding of money; concurrent edits between a snapshot and a fit.
- BudgetAlerts.CheckAll: the alert key is the pair the program joins into a string.
- Thresholds.ValidateIsIdempotent: text is ASCII; other Unicode digits and blanks are not read.
- Webhooks.AcceptedUnderSecretInForce: the HMAC and its timestamp tolerance are abstracted to knowing the secret; delivery-platform checks and the enabled check before a retry are not modelled.
- RestorePoint.Capture: symbolic links, empty directories, ownership and full destinations are not modelled; the tar safety filter is an arbitrary predicate.
- RestorePoint.RestoreAndUndo: capture and validation share one predicate for the library's tar filter; that the library answers both alike is not claimed.
- ProvisioningErrors.RebuiltIsAccepted: the regular-expression search and the classification of exceptions are not modelled; any fragments in the patterns' languages and any category are covered. That a figure repeats the cluster's text exactly is not claimed, because a capital-E exponent is shortened by the pair pattern.
- ProvisioningErrors.StoredErrorReadsBack: the summary's fixed copy is represented by its operation and category.
- Denylist.JoinClean: case folding is modelled on ASCII, which covers every text the patterns match.
