# Verified model of the in-network telemetry controller

This project models, in Dafny 4.11, the part of the SDN controller that configures in-network
telemetry: the transactional, reference-counted configuration of switch tables
(`src/kinda-sdn/telemetry`), the graph and forwarding code it builds on, the normalisation of
P4Runtime matches, and the two reconcilers that feed it with endpoints. `dafny verify dfyconfig.toml`
checks everything.

Each operation that the program performs by changing things in place is a class method or a loop here,
with a contract that ties it to a function of its inputs or of the old state; what the program promises
is then proved about those functions, and, for concurrent code, about state machines whose steps are
the program's atomic actions.

| file | what it is about |
|---|---|
| `Tables.dfy`, `StateCounter.dfy`, `ChangeLog.dfy` | one action on the counters and the switches, changelogs, commit and rollback |
| `Protocol.dfy` | many intents committing and rolling back at once, action by action |
| `Entities.dfy`, `Gathering.dfy`, `Updates.dfy` | telemetry entities, their difference, and what an update counts at every step |
| `UpdateRuns.dfy` | runs in which every changelog is one that the service makes |
| `SoleUser.dfy`, `Neighbours.dfy` | one intent configures, updates and disables: when it, or a neighbour, loses entries |
| `FailingRequests.dfy` | requests and runs that bring about updates that are not clean, and foreign entries |
| `CollectionIds.dfy`, `PoolInterleaving.dfy`, `PoolHistory.dfy`, `PoolOverlap.dfy` | the collection id pool, call by call and step by step, what its calls have done when they end, and when one id gets two slots |
| `Lifecycle.dfy` | intent locks, intent state and pool ownership under concurrent calls |
| `Departures.dfy` | what a disabled intent leaves behind while other calls run |
| `Commitments.dfy`, `Service.dfy` | what one call does to the tables and when it succeeds, and the service object with its undisturbed calls |
| `Topology.dfy`, `Bfs.dfy`, `Dfs.dfy`, `Trees.dfy` | graphs, breadth-first next hops, the depth-first path, trees |
| `Selection.dfy`, `Requests.dfy`, `RequestedConfigs.dfy`, `EntryGeneration.dfy` | source and sink choice, entities of a request and what its configs match, table entries of entities and what they say |
| `Forwarding.dfy` | direct and indirect forwarding entries |
| `BinaryArithmetic.dfy`, `Bytestrings.dfy`, `NetworkIp.dfy` | P4Runtime byte strings, and network addresses in 32-bit arithmetic |
| `Reconcile.dfy` | the deployment pass and the endpoints pass |

## What the model says about the code

The theorems are about all inputs and all runs that meet the conditions they state; conditions that the
program does not enforce are listed here or under "Left out". Where a law is false of the code as it
stands, the model keeps the code and gives the exact condition, or a witness:

- A failed first write leaves `numEntries` one too high; the drift is exactly the number of such failures
  (`Tables.NumEntriesDrift`).
- Undoing a delete writes the entry of the action, not the stored one. A rollback without failed undos
  restores the contents exactly when, for each key, the first delete that removed its entry carried that
  entry (`Tables.WhenRollbackRestores`, `Tables.UndoneDeleteRewrites`). Two intents with one collection id
  and different collectors share a key with different entries (`FailingRequests.CollectorsShareKey`), and
  then a successful undo can replace the entry (`FailingRequests.UndoChangesEntry`).
- An update of an intent is committed as a difference. Sink, reporting and transit entries are always
  counted correctly. The activation of a kept edge is counted once too often if the edge only gains
  configs and once too little if it only loses some; a source config is off by the difference of its
  multiplicities on the kept edges of its device (`TelemetryEntities.UpdateEquation`,
  `TelemetryEntities.ActivateDrift`, `SoleUser.SourceDrift`). The update equals a rebuild exactly when none
  of this happens (`TelemetryEntities.UpdateRefinesRebuild`).
- A request that drops one of two pairs on a source edge is such an update that only loses
  (`FailingRequests.DroppedPairLoses`), and one that lists a target twice drifts a source config down
  (`FailingRequests.RepeatedTargetDrifts`).
- An entry is installed exactly while what the intents need and have applied, what finished updates counted
  too often or too little, and what failed undos left or took is positive in sum, in every reachable state
  (`Protocol.WhenInstalled`); in runs of the service's own updates the second part is the sum of their drifts
  (`UpdateRuns.WhenInstalledInRun`, `UpdateRuns.WhenSurvivesInRun`).
- So counting too often takes no entry away: what an intent keeps stays installed
  (`UpdateRuns.KeptEntryIsInstalled`). Counting too little does. A sole user whose kept edge only loses
  configs has its activation removed while it needs it, and its later disable completes exactly when no
  count has drifted down (`SoleUser.LosingEdgeIsDeactivated`, `SoleUser.WhenDisableCompletes`,
  `SoleUser.DisableNeverCompletes`, `SoleUser.DisableMissesEntry`). With a neighbour on the same edge the
  disable completes, and the neighbour loses its activation (`Neighbours.NeighbourIsDeactivated`).
- An undo that fails can take an entry from an intent that still needs it (`Protocol.FailedUndoLosesEntry`).
- An empty collection id keeps the pool consistent exactly when there is no free slot
  (`CollectionIds.EmptyIdBreaksPool`). Otherwise the panic of the pool becomes reachable: with `n` free slots
  the `n`-th call for a new id after it panics (`CollectionIds.EmptyIdLeadsToPanic`).
- A compatible target with nothing compatible before it is itself chosen as source, and the device before
  it, compatible or not, as sink (`Selection.WhenChosen`); entries can be generated exactly when that
  device happens to be a switch (`EntryGeneration.WhenRequestIsGenerable`).
- Two calls for one collection id that overlap can put it in two slots. In runs without such an overlap,
  whatever else overlaps, no id is in two slots (`PoolOverlap.NoIdInTwoSlots`); conversely every state at
  rest with two free slots and an absent id can be led to the duplicate (`PoolOverlap.OverlapDuplicates`).
  Without such an overlap an intent that was disabled leaves no lock, no state and no slot, whatever all
  other calls do meanwhile (`Departures.NoLockNoTrace`, `Departures.ThereAndBack`). A removal leaves a trace
  exactly if the intent is listed in a second slot (`Departures.WhenFreeLeavesTrace`), and there is a run in
  which overlapping calls bring that about (`Departures.OverlapLeavesTrace`).

The topology is fixed, and the key of a reference count is identified with the match of the table entry,
which is one-to-one as long as addresses contain no underscore
(`src/kinda-sdn/telemetry/config.go:59-65`). The five counters of the service are one object, because a
key says which table it belongs to. Map iteration is an arbitrary choice in every loop that has it. The
switches answer by a function of the number of the request, which may be any function; what a call got as
answers is returned to its specification.

## Model

| member | source | states |
|---|---|---|
| `StateCounters.StateCounter.IncrementAndRunOnTransitionToOne` | src/kinda-sdn/telemetry/counter.go:58-85 | counts a key up and writes its entry when it was not counted; a refused write leaves counts and switch as they were but the number of entries one higher |
| `StateCounters.StateCounter.DecrementAndRunOnTransitionToZero` | src/kinda-sdn/telemetry/counter.go:87-114 | counts a key down and deletes its entry on the last use; fails on a key that is not counted |
| `StateCounters.ApplyChange` | src/kinda-sdn/telemetry/service.go:318-339 | one action of a changelog is a create or a delete on the counters and the switch |
| `Tables.ApplyEffect` | src/kinda-sdn/telemetry/counter.go:58-114 | an action changes exactly its own count by one if it succeeds, keeps counters and switches in agreement, changes neither if it fails, and fails exactly when the switch is asked and refuses or there is nothing to delete |
| `ChangeLogs.ChangeLog.ExtendFrom` | src/kinda-sdn/telemetry/changelog.go:65-70 | the other changelog's actions follow this one's |
| `ChangeLogs.ChangeLog.AddAction` | src/kinda-sdn/telemetry/changelog.go:72-74 | an action is appended |
| `ChangeLogs.ChangeLog.Commit` | src/kinda-sdn/telemetry/changelog.go:76-85 | applies the actions in order up to the first failure and counts those done |
| `ChangeLogs.ChangeLog.Rollback` | src/kinda-sdn/telemetry/changelog.go:87-97 | undoes the done actions, last first, and reports those whose undo failed |
| `ChangeLogs.CommitOrRollback` | src/kinda-sdn/telemetry/service.go:317-352 | the commit succeeds if and only if, with the answers the switches gave, every action of the log is done; then every count moved by the net of the log, otherwise by the net of the actions reported as not undone, each of which is an action of the log; an answer that refuses was one of the switches |
| `Tables.CommitCounts` | src/kinda-sdn/telemetry/changelog.go:76-85 | a commit moves every count by the net of the actions done |
| `Tables.RollbackCounts` | src/kinda-sdn/telemetry/changelog.go:87-97 | a rollback takes the net of the log off every count, except for the actions it reports |
| `Tables.RollbackReportsActions` | src/kinda-sdn/telemetry/changelog.go:87-97 | what a rollback reports are actions of the log, none more often than it occurs |
| `Tables.CommitThenRollback` | src/kinda-sdn/telemetry/service.go:341-351 | rollback exactness: wherever the commit stopped, counts are back up to the net of the failed undos, and with none failed the installed keys are restored |
| `Tables.RanCounts` | src/kinda-sdn/telemetry/service.go:341-351 | a commit that is rolled back if it fails keeps counters and switches in agreement and moves each count by the net of the log or of the failed undos |
| `Tables.InstalledIsOldOrCreated` | src/kinda-sdn/telemetry/counter.go:58-114 | what a switch holds after a commit was there before, unchanged, or is the entry of a create of the log |
| `Tables.CreatesInstall` | src/kinda-sdn/telemetry/counter.go:71-84 | a completed list of creates installs for each absent key the entry of its first create and leaves the entries that were there alone |
| `Tables.RollbackContents` | src/kinda-sdn/telemetry/changelog.go:18-27 | after a complete rollback keys and counts are those of the start, and each entry is the one carried by the first delete that removed it, or its own |
| `Tables.WhenRollbackRestores` | src/kinda-sdn/telemetry/changelog.go:18-27 | contents are restored if and only if for each key the first delete that took its count from one to zero carried the stored entry |
| `Tables.UndoneDeleteRewrites` | src/kinda-sdn/telemetry/changelog.go:18-27 | without that, undoing a delete installs the entry of the action |
| `Tables.NumEntriesDrift` | src/kinda-sdn/telemetry/counter.go:71-112 | in every interleaving `numEntries` exceeds the table size by exactly the number of refused first writes |
| `Protocol.CountsAreContributions` | src/kinda-sdn/telemetry/service.go:317-352 | in every interleaving of commits and rollbacks, whatever the switches answer, each count is the sum of what the intents applied plus the net of their failed undos |
| `Protocol.PrefixKeepsMinimum` | src/kinda-sdn/telemetry/service.go:139-153 | make before break: at every point of any log that creates first, each key is counted at least as often as before it or as after it |
| `Protocol.NeededEntryIsInstalled` | src/kinda-sdn/telemetry/counter.go:58-114 | in every reachable state in which updates did not count the key too little and failed undos took no more from it than they left, an entry that an intent needs before and after its update is installed: no other intent removes it |
| `Protocol.ContributedEntryIsInstalled` | src/kinda-sdn/telemetry/counter.go:58-114 | so is what an intent has applied so far |
| `Protocol.DeleteFindsEntry` | src/kinda-sdn/telemetry/counter.go:100-103 | an intent that deletes, or undoes a create, of such a key never meets the error for a non-existing entry |
| `Protocol.IdleContributesNeed` | src/kinda-sdn/telemetry/service.go:194-217 | an idle intent contributes the entries it is configured with, failed undos apart: exactly for keys its updates counted exactly, at least for keys they did not count too little |
| `Protocol.WhenInstalled` | src/kinda-sdn/telemetry/counter.go:58-114 | in every reachable state, for any logs and any failed undos: an entry is installed if and only if what intents need and have applied, plus the surplus of finished updates, plus the net of failed undos is positive |
| `Protocol.SurplusChanges` | src/kinda-sdn/telemetry/service.go:154-176 | the surplus changes only when an update finishes, by as much as it misses its goal |
| `Protocol.WhenNeededEntrySurvives` | src/kinda-sdn/telemetry/changelog.go:87-97 | with all intents idle, an entry is installed if and only if surplus and failed undos took less from its count than the intents need |
| `Protocol.FailedUndoLosesEntry` | src/kinda-sdn/telemetry/changelog.go:87-97 | a run from the empty state in which a failed undo removes an entry that its intent still needs |
| `TelemetryEntities.ComputeDifferences` | src/kinda-sdn/telemetry/util.go:126-199 | returns what the new entities have and the old have not, and conversely, whatever the iteration order |
| `TelemetryEntities.DifferenceIsExact` | src/kinda-sdn/telemetry/util.go:126-199 | the differences are minimal: nothing added was there, nothing removed is there now, without the one and with the other the old transits and sinks are the new ones; a config is added, as often as it is listed now, exactly if its edge did not list it before; an edge is added exactly if it is new or has a new config |
| `TelemetryEntities.SupportExchange` | src/kinda-sdn/telemetry/util.go:126-199 | for sink, reporting and transit tables, adding the one difference and removing the other equals starting anew |
| `TelemetryEntities.ActivateExchange` | src/kinda-sdn/telemetry/util.go:163-168 | the activate-source table is updated correctly if and only if each kept edge gains configs exactly when it loses some |
| `TelemetryEntities.ActivateEquation` | src/kinda-sdn/telemetry/util.go:163-168 | in general it is off by one for each kept edge that only gains or only loses configs |
| `TelemetryEntities.ActivateDrift` | src/kinda-sdn/telemetry/service.go:286-297 | the activation of an edge is counted once too often, once too little, or correctly |
| `TelemetryEntities.EdgeExchange` | src/kinda-sdn/telemetry/util.go:137-162 | the configs of a kept edge are exchanged correctly if and only if common configs are listed equally often |
| `TelemetryEntities.SourceExchange` | src/kinda-sdn/telemetry/util.go:137-162 | the configure-source table is updated correctly if and only if on each device the kept edges together list each common config equally often |
| `TelemetryEntities.ComparableHasSameCommon` | src/kinda-sdn/telemetry/util.go:137-162 | it is if common configs are listed equally often on each edge |
| `TelemetryEntities.DuplicateFreeIsComparable` | src/kinda-sdn/telemetry/util.go:137-162 | lists without duplicates meet that condition |
| `TelemetryEntities.UpdateEquation` | src/kinda-sdn/telemetry/service.go:121-153 | any update takes the contribution of the old entities to that of the new ones plus the drift, key by key |
| `TelemetryEntities.UpdateRefinesRebuild` | src/kinda-sdn/telemetry/service.go:121-153 | it takes it to exactly that of the new ones, in all tables, if and only if the update is clean |
| `TelemetryEntities.GainingEdgeIsCountedTwice` | src/kinda-sdn/telemetry/service.go:286-297 | a kept edge that only gains configs is counted twice in the activate-source table |
| `Updates.MakeApplyChangelog` | src/kinda-sdn/telemetry/service.go:354-372 | creates sinks, reporting, transits and activations before sources |
| `Updates.MakeDeleteChangelog` | src/kinda-sdn/telemetry/service.go:374-392 | deletes sources before what they depend on |
| `Updates.LogsCarryEntries` | src/kinda-sdn/telemetry/service.go:354-392 | an update creates exactly the listed new entries and deletes exactly the listed old ones, each with its contents and as often as it is listed, and does nothing else |
| `Updates.WhenUpdateCovers` | src/kinda-sdn/telemetry/service.go:139-153 | the changelog of any update creates first; it counts a key exactly if and only if the key does not drift, and at least as needed if and only if it does not drift down; sink, reporting and transit keys never drift |
| `Updates.UpdateStillCovers` | src/kinda-sdn/telemetry/service.go:139-153 | what earlier updates counted too often makes up for a drift down |
| `Updates.NetOfUpdate` | src/kinda-sdn/telemetry/service.go:139-153 | the net of any update on every key is the new contribution less the old, plus the drift |
| `Updates.NeverSourceWithoutSinks` | src/kinda-sdn/telemetry/service.go:139-153 | at every step of committing or rolling back an update, a source entry the intent counts belongs to the old or the new configuration, and all sink, reporting and transit entries of that configuration are counted |
| `Updates.InstalledSourceHasSinks` | src/kinda-sdn/telemetry/service.go:317-392 | the same on the switches for a source that its intent counted exactly, with any other intents active and whatever their updates do to activations and other sources |
| `Updates.ConfigureThenDisableAddsNothing` | src/kinda-sdn/telemetry/service.go:122-217 | configure then disable, both committed, leave an intent's contribution to every count as it was, whatever happens in between |
| `UpdateRuns.RunCovers` | src/kinda-sdn/telemetry/service.go:91-220 | a run of the service's own updates counts a key exactly if none of them drifts it, and at least as needed if none drifts it down |
| `UpdateRuns.RunCoversSupport` | src/kinda-sdn/telemetry/service.go:91-220 | so sink, reporting and transit keys are counted exactly in every run of updates |
| `UpdateRuns.NoFailedUndoKeepsSupport` | src/kinda-sdn/telemetry/changelog.go:87-97 | without failed undos nothing is taken from them |
| `UpdateRuns.KeptEntryIsInstalled` | src/kinda-sdn/telemetry/counter.go:58-114 | what an intent has before and after its update, or has while it is idle, is installed in every run, for sink, reporting and transit keys and for keys that never drift down, unless failed undos took it |
| `UpdateRuns.RunDeleteFindsEntry` | src/kinda-sdn/telemetry/counter.go:100-103 | for such keys no delete of a run meets the error for a non-existing entry |
| `UpdateRuns.RunSourceHasSinks` | src/kinda-sdn/telemetry/service.go:317-392 | in every run in which failed undos did not take support entries, a source entry that an intent has applied, and counted exactly before, belongs to its entities or to those it is changing to, with all their sink, reporting and transit entries installed, whether it is idle or busy |
| `UpdateRuns.FinishAddsDrift` | src/kinda-sdn/telemetry/service.go:154-176 | finishing an update adds exactly its drift to the surplus of its intent |
| `UpdateRuns.WhenInstalledInRun` | src/kinda-sdn/telemetry/counter.go:58-114 | in every run of updates an entry is installed if and only if need, applied actions, the drifts of all finished updates and failed undos are positive in sum |
| `UpdateRuns.WhenSurvivesInRun` | src/kinda-sdn/telemetry/counter.go:58-114 | the same with all intents idle: the drifts and failed undos against what the intents need |
| `Neighbours.NeighbourAfterDisable` | src/kinda-sdn/telemetry/service.go:91-220 | a run from the empty state of two intents, one of which updates and disables: afterwards an entry is installed if and only if the drift has not used up the count of the other |
| `Neighbours.OnlyActivationsDriftDown` | src/kinda-sdn/telemetry/util.go:137-168 | with comparable lists no key drifts down by more than a neighbour on the same edges counts it |
| `Neighbours.NeighbourIsDeactivated` | src/kinda-sdn/telemetry/service.go:286-297 | so when an edge of both only loses configs and its intent then disables, the neighbour is left without an activation that it needs, with no failed undo |
| `SoleUser.WhenCommitCompletes` | src/kinda-sdn/telemetry/changelog.go:76-85 | with switches that answer, a log that creates first completes if and only if it leaves no count negative |
| `SoleUser.CommitIsRun` | src/kinda-sdn/telemetry/changelog.go:76-85 | the concurrent machine, run by one intent alone, does what a commit does, for any answers |
| `SoleUser.UpdatedSoleUser` | src/kinda-sdn/telemetry/service.go:121-153 | a run from the empty state through configuration and update; every count is the need plus the drift |
| `SoleUser.WhenDisableCompletes` | src/kinda-sdn/telemetry/service.go:194-217 | then a disable completes if and only if no count has drifted down |
| `SoleUser.DisableNeverCompletes` | src/kinda-sdn/telemetry/service.go:194-217 | with a count that drifted down it never completes, whatever the switches answer |
| `SoleUser.DisableMissesEntry` | src/kinda-sdn/telemetry/counter.go:100-103 | otherwise the run goes on to a delete of an entry that does not exist |
| `SoleUser.LosingEdgeIsDeactivated` | src/kinda-sdn/telemetry/service.go:286-297 | a kept edge that only loses configs loses its activation while the intent needs it |
| `SoleUser.SourceDrift` | src/kinda-sdn/telemetry/util.go:137-162 | a config of a device's only kept edge drifts by the difference of its multiplicities |
| `SoleUser.DuplicatedConfigDrifts` | src/kinda-sdn/telemetry/util.go:137-162 | a config listed once before and twice after the update drifts down |
| `FailingRequests.DroppedPairLoses` | src/kinda-sdn/telemetry/traversals.go:165-211 | two requests, the second of which drops one of two pairs on a source edge, make an update in which the edge only loses configs |
| `FailingRequests.RepeatedTargetDrifts` | src/kinda-sdn/telemetry/traversals.go:165-211 | a request for one target, then one that lists it twice, drift the source config down |
| `FailingRequests.CollectorsShareKey` | src/kinda-sdn/telemetry/service.go:266-277 | intents with one collection id and different collector ports use one reporting key with different entries |
| `FailingRequests.UndoChangesEntry` | src/kinda-sdn/telemetry/changelog.go:18-27 | a run in which a successful undo replaces the entry of a key by that of another intent |
| `CollectionIds.CollectionIdPool.constructor` | src/kinda-sdn/telemetry/pool.go:22-37 | a pool of free slots |
| `CollectionIds.CollectionIdPool.AllocOrGet` | src/kinda-sdn/telemetry/pool.go:42-74 | joins the first slot with the id, else reserves and takes the first free slot, else is refused |
| `CollectionIds.CollectionIdPool.GetIfAllocated` | src/kinda-sdn/telemetry/pool.go:76-87 | the first slot with this id that the intent uses |
| `CollectionIds.CollectionIdPool.GetIfAnyAllocated` | src/kinda-sdn/telemetry/pool.go:89-101 | the first used slot with this id |
| `CollectionIds.CollectionIdPool.Free` | src/kinda-sdn/telemetry/pool.go:103-123 | takes the intent out of its slot and clears the slot after its last user |
| `CollectionIds.AllocKeepsConsistent` | src/kinda-sdn/telemetry/pool.go:42-74 | an undisturbed call never panics, is refused exactly when the id is new and all slots are taken, and keeps ids distinct and the counter exact |
| `CollectionIds.EmptyIdBreaksPool` | src/kinda-sdn/telemetry/pool.go:45 | with the empty id the pool stays consistent if and only if no slot is free |
| `CollectionIds.LaggingCall` | src/kinda-sdn/telemetry/pool.go:53-74 | once the counter lags behind the used slots, a call for a new id panics if and only if no slot is free |
| `CollectionIds.EmptyIdLeadsToPanic` | src/kinda-sdn/telemetry/pool.go:45-74 | with any number of free slots, a call for the empty id and then as many calls for new ids end in the panic |
| `CollectionIds.FreeKeepsConsistent` | src/kinda-sdn/telemetry/pool.go:103-123 | freeing keeps the pool consistent and leaves the intent no slot with the id |
| `CollectionIds.FreeUndoesAlloc` | src/kinda-sdn/telemetry/pool.go:42-123 | freeing undoes a first allocation exactly |
| `CollectionIds.InterleavedFreeLeavesNothing` | src/kinda-sdn/telemetry/pool.go:42-123 | with calls of other intents in between, freeing takes the intent out of the pool and moves nobody else |
| `PoolInterleaving.RunKeepsInv` | src/kinda-sdn/telemetry/pool.go:42-123 | in every run of lock, compare-and-swap and slot steps: from every position on there are at least as many free slots as reserved threads scanning there |
| `PoolInterleaving.ReservedThreadFindsSlot` | src/kinda-sdn/telemetry/pool.go:53-74 | the panic at the end of the scan is unreachable, the counter stays in range, and a free slot lies ahead of every reserved thread |
| `PoolInterleaving.ReturnedSlotIsOwned` | src/kinda-sdn/telemetry/pool.go:45-72 | the slot that a call is about to return is one the intent owns |
| `PoolInterleaving.OwnershipIsStable` | src/kinda-sdn/telemetry/pool.go:103-123 | a step takes an intent's slot away only if it frees that intent |
| `PoolInterleaving.SomeThreadCanMove` | src/kinda-sdn/telemetry/pool.go:42-123 | no deadlock: in every run, while a call is unfinished some thread can move |
| `PoolHistory.WhatFreeDid` | src/kinda-sdn/telemetry/pool.go:103-123 | in every run a free that has ended took its intent, and no other, out of the first slot that it saw with the intent and the id, or it held every slot once and none of them was the intent's with that id |
| `PoolHistory.RefusedWhenFull` | src/kinda-sdn/telemetry/pool.go:53-59 | in every run a refused call saw the counter at the size of the pool: at that moment every slot was used, promised to a scanning call, or about to be given back |
| `PoolOverlap.NoIdInTwoSlots` | src/kinda-sdn/telemetry/pool.go:42-74 | in every run in which no two calls for one id are between searching and taking, no id is in two slots, however calls for different ids and frees overlap |
| `PoolOverlap.OverlapDuplicates` | src/kinda-sdn/telemetry/pool.go:43-72 | every run that ends at rest with two free slots goes on, by two overlapping calls for an absent id, to the id in both slots, and the second intent will leak |
| `PoolOverlap.NothingLeaks` | src/kinda-sdn/telemetry/pool.go:42-123 | without such overlap, one call to configure and one to free, at rest and with nothing in between, leave the intent in no slot of the id |
| `CollectionIds.WhenIdLeaks` | src/kinda-sdn/telemetry/pool.go:42-123 | configuring and freeing leaves the intent in a slot if and only if it owned the id in a slot behind the first one that holds it |
| `Lifecycle.OneCallPerIntent` | src/kinda-sdn/telemetry/service.go:406-447 | in every run at most one call works on an intent, and the lock it will give up is in the map and held |
| `Lifecycle.UnheldLockHasState` | src/kinda-sdn/telemetry/service.go:96-217 | an existing lock that nobody holds implies stored state and a pool slot with its id; without a lock there is no state |
| `Lifecycle.DisableFindsItsIntent` | src/kinda-sdn/telemetry/service.go:194-202 | the early return and the panic of a disable are unreachable |
| `Lifecycle.StateChangesAfterCommit` | src/kinda-sdn/telemetry/service.go:154-217 | in every run state is stored only after a commit of a configuration with the stored id that succeeded, and deleted only after a commit of a removal that succeeded |
| `Lifecycle.RefusedCommitKeepsState` | src/kinda-sdn/telemetry/service.go:155-213 | a commit that fails, of a configuration or a removal, leaves the state of its intent as it was for as long as the call holds the lock, whatever other calls do |
| `Lifecycle.RunKeepsInv` | src/kinda-sdn/telemetry/service.go:91-221 | locks, states and pool slots move together through every step of every run |
| `Departures.RunKeepsTidy` | src/kinda-sdn/telemetry/pool.go:42-123 | in every run in which calls for one id do not overlap, ids are distinct and each slot lists an intent only under the id that is stored, requested or being freed for it |
| `Departures.NoLockNoTrace` | src/kinda-sdn/telemetry/service.go:194-217 | in such runs an intent without a lock has no state and is listed in no slot, whatever calls run |
| `Departures.FreeLockOneSlot` | src/kinda-sdn/telemetry/service.go:91-178 | and one whose lock is free is listed in exactly one slot, with its stored id |
| `Departures.DeleteLockLeavesNothing` | src/kinda-sdn/telemetry/service.go:156-160 | deleting the lock, after a removal or a first configuration that failed, leaves nothing of the intent |
| `Departures.ThereAndBack` | src/kinda-sdn/telemetry/service.go:91-221 | an intent that was unknown and is unknown again has locks, state and pool as before, whatever it and all others did in between |
| `Departures.WhenFreeLeavesTrace` | src/kinda-sdn/telemetry/pool.go:103-123 | freeing leaves the intent in the pool if and only if another slot lists it |
| `Departures.OverlapLeavesTrace` | src/kinda-sdn/telemetry/pool.go:42-123 | a run in which two overlapping first configurations for one id end in an intent without lock and state that a slot still lists |
| `Service.TelemetryService.LockIntent` | src/kinda-sdn/telemetry/service.go:406-420 | locks an intent unless its lock is held |
| `Service.TelemetryService.TryLockIntentIfExists` | src/kinda-sdn/telemetry/service.go:422-434 | the same for an existing lock only |
| `Service.TelemetryService.UnlockIntent` | src/kinda-sdn/telemetry/service.go:436-440 | gives a held lock up |
| `Service.TelemetryService.DeleteIntentLock` | src/kinda-sdn/telemetry/service.go:443-447 | removes a held lock |
| `Service.MakeChangelog` | src/kinda-sdn/telemetry/service.go:138-153 | the changelog of an update has the creates of the entries of the added entities and the deletes of those of the removed ones, for this collector and this number, and is missing only if there are none |
| `Service.TelemetryService.ConfigureTelemetry` | src/kinda-sdn/telemetry/service.go:91-178 | the answer is OK if and only if the lock is free, a stored collection id is the requested one, the pool has a slot, and the commit of the difference completes; when every switch answers, the last holds if and only if no count would go negative. Success stores the entities of the request and counts them instead of the old ones, up to the drift of the update; any other answer leaves locks, states and pool as they were and the tables as a rollback leaves them, or untouched if nothing was sent |
| `Service.TelemetryService.DisableTelemetry` | src/kinda-sdn/telemetry/service.go:180-220 | answers at once; asks to retry exactly if the lock is held, and starts the removal, with the lock held, exactly if the lock exists and is free |
| `Service.TelemetryService.RemoveIntent` | src/kinda-sdn/telemetry/service.go:194-217 | the removal succeeds if and only if the commit of the deletes completes, and when every switch answers, if and only if no count would go negative; success removes state, lock and pool slot and takes the entities off every count; failure gives the lock up and leaves the tables as a rollback leaves them |
| `Commitments.WhenAnsweredSucceeds` | src/kinda-sdn/telemetry/service.go:154-165 | with switches that answer, a call that adds and removes any entities succeeds if and only if it would leave no count negative |
| `Commitments.SuccessSwitches` | src/kinda-sdn/telemetry/service.go:121-176 | after a successful update every count is that before, less what the old entities count, plus what the new ones count and the drift |
| `Commitments.SuccessInstalls` | src/kinda-sdn/telemetry/service.go:154-176 | after a successful call a switch holds what it held before, unchanged, or an entry that the call added, and it holds one exactly for each key whose count is positive |
| `Commitments.FailureStaysWithin` | src/kinda-sdn/telemetry/service.go:341-351 | a failed call moves a count up at most by what it would have added and down at most by what it would have removed |
| `Service.ConfigureThenDisable` | src/kinda-sdn/telemetry/service.go:91-221 | configure then disable of a fresh intent, undisturbed: both succeed if and only if there is a slot, when every switch answers; if both succeed, locks, states, pool and every count are restored |
| `Service.Allocation` | src/kinda-sdn/telemetry/service.go:126-160 | allocating again changes nothing, and freeing after a failed first configuration restores the pool |
| `BreadthFirst.Bfs` | src/kinda-sdn/graphutils/traversals.go:13-32 | computes the breadth-first tree |
| `BreadthFirst.PathToIsShortest` | src/kinda-sdn/graphutils/traversals.go:13-32 | climbing the tree gives a walk that no walk is shorter than |
| `BreadthFirst.TreeSpansReachable` | src/kinda-sdn/graphutils/traversals.go:13-32 | the tree holds exactly the reachable devices |
| `BreadthFirst.BfsPathFind` | src/kinda-sdn/graphutils/traversals.go:34-48 | returns the climbed path |
| `BreadthFirst.FindNextHop` | src/kinda-sdn/graphutils/traversals.go:84-89 | returns the second device of that path |
| `BreadthFirst.GetNextHopsMap` | src/kinda-sdn/graphutils/traversals.go:51-81 | the memoised climb gives every device the hop that `FindNextHop` gives |
| `BreadthFirst.NextHopIsCloser` | src/kinda-sdn/graphutils/traversals.go:84-89 | the next hop is a neighbour and exactly one link closer to the target |
| `BreadthFirst.ForwardingArrives` | src/kinda-sdn/graphutils/traversals.go:51-81 | following the maps hop by hop reaches the target after exactly its distance, not before |
| `DepthFirst.DfsRun.Search` | src/kinda-sdn/telemetry/traversals.go:11-28 | the recursive closure, with its shared visited set and early exit, does what the recursive function does |
| `DepthFirst.RunDfs` | src/kinda-sdn/telemetry/traversals.go:8-31 | returns the path of that search |
| `DepthFirst.DfsIsCorrect` | src/kinda-sdn/telemetry/traversals.go:8-31 | the result is non-empty if and only if the target is reachable, and is then a simple walk over real links, reversed |
| `DepthFirst.PathTakesFirstLinks` | src/kinda-sdn/telemetry/traversals.go:8-31 | at every device the found path takes the first link from which the target can be reached at all without going back to the path so far; this determines the path |
| `DepthFirst.FindPortLeadingToDevice` | src/kinda-sdn/telemetry/traversals.go:33-42 | the port through which the found path leaves; panics exactly if the target is the source or unreachable |
| `Trees.UniqueSimplePath` | src/kinda-sdn/controller/tree.go:13 | in a tree there is one simple path between two devices |
| `Trees.DfsPathIsBfsPath` | src/kinda-sdn/telemetry/traversals.go:8-31 | in a tree the depth-first path is the breadth-first path |
| `Trees.TelemetryPortIsForwardingPort` | src/kinda-sdn/telemetry/traversals.go:33-42 | so telemetry leaves through the port of the next hop that forwarding uses |
| `Selection.FindSourceSinkEdgesAndFillTransit` | src/kinda-sdn/telemetry/traversals.go:49-91 | chooses on the found path and adds the compatible devices between source and sink to the transits |
| `Selection.ChoiceIsNearest` | src/kinda-sdn/telemetry/traversals.go:63-87 | with an incompatible target: found if and only if the interior has two compatible devices; source and sink are those nearest sender and receiver and the rest become transits |
| `Selection.WhenChosen` | src/kinda-sdn/telemetry/traversals.go:63-80 | the exact condition in general, with the misselection of a compatible target |
| `Requests.CreateTunneledTelemetryConfigs` | src/kinda-sdn/telemetry/traversals.go:93-128 | one config per pair of tunneled entities, source first |
| `Requests.FindTelemetryEntitiesForRequest` | src/kinda-sdn/telemetry/traversals.go:165-211 | the entities are exactly the union over all pairs of their edges, transits and configs, in whatever order pairs are taken |
| `RequestedConfigs.RequestIsSpanned` | src/kinda-sdn/telemetry/traversals.go:49-91 | the source edges, sink edges and transits of a request are exactly those of its pairs, by position on the path: from the sender the first compatible device with its edge back, from the receiver the first one with its edge on, and the compatible devices from one to the other |
| `RequestedConfigs.ConfigsAreWishes` | src/kinda-sdn/telemetry/traversals.go:93-163 | at each source edge every config is listed exactly as often as pairs with that edge ask for it: a raw pair once, for the addresses with which sender and receiver are linked to the path, or any address of an external device, and for their ports; a tunneled pair once for each source and target with its addresses and ports, sender first |
| `RequestedConfigs.RawPairIsMatched` | src/kinda-sdn/telemetry/traversals.go:130-163 | so at the source of every raw pair a config matches what the pair sends |
| `Requests.OrderIsIrrelevant` | src/kinda-sdn/telemetry/traversals.go:165-211 | two orders give the same entities up to permutation of config lists, with no difference either way |
| `TelemetryEntities.ReorderedHasNoDifference` | src/kinda-sdn/telemetry/util.go:126-199 | permuted config lists have no difference |
| `Requests.OnlyCompatibleConfigured` | src/kinda-sdn/telemetry/traversals.go:63-91 | without compatible targets no incompatible device is configured |
| `Requests.InteriorIsConfigured` | src/kinda-sdn/telemetry/traversals.go:77-91 | every compatible device inside the path of a found pair is a transit, source and sink included |
| `Requests.EdgesOfPair` | src/kinda-sdn/telemetry/traversals.go:181-182 | the edges of a pair are links, and their devices compatible unless the pair is misselected |
| `EntryGeneration.GetEntriesForTelemetryEntities` | src/kinda-sdn/telemetry/service.go:235-315 | one entry, or pair of entries, per sink, transit, source edge and config, in the order of some iteration, each saying what is meant by its fields: ports lead to the neighbours and to the collector, addresses are those of the links that reports take, sources match their configs and carry the collection id; it panics exactly if a lookup fails |
| `EntryGeneration.GenerateSink` | src/kinda-sdn/telemetry/service.go:250-277 | the sink and reporting entries of one sink, or the panic |
| `EntryGeneration.EntriesSayEntities` | src/kinda-sdn/telemetry/service.go:235-315 | what each entry says, field by field: keys and ports of sinks and activations, addresses and collector of reports, numbers of transits, matches and instructions of sources |
| `EntryGeneration.ReportsMatchSources` | src/kinda-sdn/telemetry/service.go:268-309 | what a source entry marks carries the id under which every reporting entry of the same result is keyed |
| `EntryGeneration.EntriesAreCompiled` | src/kinda-sdn/telemetry/service.go:235-315 | the entries count each key as often as the entities need it |
| `EntryGeneration.WhenRequestIsGenerable` | src/kinda-sdn/telemetry/service.go:250-311 | on a closed, two-way, connected topology with a collector that is not a switch, no lookup fails if and only if every misselected pair has a switch before its target |
| `EntryGeneration.ProperRequestIsGenerable` | src/kinda-sdn/telemetry/service.go:250-311 | so a request without compatible targets, its updates and its removal never panic |
| `EntryGeneration.ReportsFollowForwarding` | src/kinda-sdn/telemetry/service.go:256-276 | in a tree, reports leave by the link that forwarding uses towards the collector, with its addresses, for the MAC of the next device's link back and the address of the link that forwarding uses from the collector to the sink |
| `Forwarding.CreateDirectForwardEntries` | src/kinda-sdn/controller/tree.go:35-44 | one host route per link, to the peer's address, through the first port that leads to the peer, with the MACs of the link and of the peer's link back |
| `Forwarding.CreateIndirectForwardEntries` | src/kinda-sdn/controller/tree.go:46-85 | one entry per network behind devices that are not neighbours, whatever the iteration order; its port is the first one that leads to the next hop towards one of these devices, with the MACs of that link and of the hop's link back |
| `Forwarding.EndsShareHop` | src/kinda-sdn/controller/tree.go:63-85 | in a tree both ends of a foreign link have the same next hop |
| `Forwarding.TreeForwarding` | src/kinda-sdn/controller/tree.go:46-85 | in a tree with a subnet per link a switch gets exactly one entry per foreign link, through the port and MACs that lead to the breadth-first next hop towards it |
| `Forwarding.OrderDoesNotMatter` | src/kinda-sdn/controller/tree.go:62-85 | two iteration orders give the same entries |
| `Forwarding.SwitchEntries` | src/kinda-sdn/controller/tree.go:10-25 | all this for the entries of one switch with its breadth-first next hops |
| `Bytestrings.ToCanonicalBytestring` | src/libs/p4r/util/conversion/conversion.go:65-80 | strips leading zeros down to one byte |
| `Bytestrings.CanonicalKeepsValue` | src/libs/p4r/util/conversion/conversion.go:65-80 | canonicalisation preserves the value |
| `Bytestrings.CanonicalDecidesValue` | src/libs/p4r/util/conversion/conversion.go:65-80 | non-empty byte strings have equal canonical forms if and only if equal values (P4Runtime Specification v1.3.0, section 8.4) |
| `Bytestrings.LpmGet` | src/libs/p4r/client/tables.go:50-80 | masks the value in place after the prefix and canonicalises it on demand |
| `Bytestrings.LpmClearsSuffix` | src/libs/p4r/client/tables.go:56-67 | that clears exactly the bits after the prefix (section 9.1.1) |
| `Bytestrings.TernaryGet` | src/libs/p4r/client/tables.go:82-113 | masks the value in place, cutting or aligning it to the mask and leaving the bytes before it alone, and canonicalises both on demand |
| `Bytestrings.TernaryIsAnd` | src/libs/p4r/client/tables.go:88-99 | that is the bitwise conjunction of value and mask under zero extension |
| `Bytestrings.NumberToBinaryUint` | src/libs/p4r/util/conversion/conversion.go:36-46 | the bytes of a number have its value modulo their width |
| `NetworkIps.GetNetworkIp` | src/kinda-sdn/controller/util.go:40-58 | int32 masking with wrap-around and arithmetic shifts gives the LPM-masked address for every mask from 0 to 32 |
| `Reconcile.ReconcileDeploymentEndpointEntries` | src/inc-operator/controllers/internalinnetworktelemetrydeployment_controller.go:57-117 | keeps every old entry's place and marks it terminating exactly if its pod is gone, keeps one entry per pod, creates pending ones with node and address of running pods, and reports a change exactly if there was one |
| `Reconcile.ReconciledSays` | src/inc-operator/controllers/internalinnetworktelemetrydeployment_controller.go:57-117 | the result has one entry for each old entry without a pod, at its place and terminating, and one for each pod that has an entry or runs: its first old entry unchanged, or a pending one with the pod's node and address; and no other |
| `Reconcile.ReconcileDeploymentEndpoints` | src/inc-operator/controllers/internalinnetworktelemetrydeployment_controller.go:119-160 | each template takes the first deployment with its name; if one of these changed they all get their new lists and the other deployments come out blank, else nothing changes; fails exactly if a template has no deployment |
| `Reconcile.AllTakePart` | src/inc-operator/controllers/internalinnetworktelemetrydeployment_controller.go:119-160 | with distinct deployments that all have templates, all take part |
| `Reconcile.GetEntitiesForEndpoints` | src/inc-operator/controllers/internalinnetworktelemetryendpoints_controller.go:181-212 | sends for each node with ready or pending entries exactly their addresses, one each and in order, and for no other node; reports whether any entry is not ready, and panics exactly on an unknown status |
| `Reconcile.ReconcileEndpoints` | src/inc-operator/controllers/internalinnetworktelemetryendpoints_controller.go:119-178 | on acceptance, drops terminating entries and makes the others ready, if anything was not ready |
| `Reconcile.SentIsKept` | src/inc-operator/controllers/internalinnetworktelemetryendpoints_controller.go:163-205 | the addresses sent for a node are those of the entries that are kept for it |
| `Reconcile.TwoRounds` | src/inc-operator/controllers/internalinnetworktelemetrydeployment_controller.go:57-117 | two rounds lead one list to its final form, with distinct ids and known statuses throughout: each final entry is ready and has node and address of its pod, or of the entry that the pod had at the start |
| `Reconcile.Converges` | src/inc-operator/controllers/internalinnetworktelemetryendpoints_controller.go:119-178 | two rounds of both passes settle all deployments, then neither pass changes anything, and the panic is unreachable throughout |
| `Reconcile.AllRunning` | src/inc-operator/controllers/internalinnetworktelemetrydeployment_controller.go:57-117 | if all pods run, the final entries are one ready entry per pod and nothing else |

## Left out

- gRPC, HTTP, the Kubernetes client, P4Runtime sessions and generated code: device calls answer success or failure arbitrarily, the SDN controller's answer to the endpoints pass is a parameter.
- Topology changes between calls, and a change of the collector of a live intent: entries are recomputed from current inputs, so what an intent contributes would no longer be what it added.
- Contents of a shared entry after its first owner left: the first writer's entry stays, so contents depend on history; presence and counts are claimed.
- `SourceCapabilityMonitor` and `createCapabilityUpdate`: a last-value queue beside the protocol; `numEntries`, which they publish, is modelled.
- `InitDevices`: the counters of the model know every device, so the panic for an uninitialised device is not modelled.
- Parsing and printing of addresses and masks, MAC addresses, MTU values, time-outs and logging: addresses are four octets, the rest is opaque data or absent.
- Requests that mix raw and tunneled sides, for which the code panics on a type assertion.
- The external telemetry endpoints reconciler, the SDN shim reconciler, the statistics engine, the report parser and the topology generators.
- ARP entries, and the default route entry, which the code computes and then discards.
- `ExactMatch`, `RangeMatch` and `OptionalMatch`: they only canonicalise, which is modelled.
- The deletion branch of the endpoints reconciler and the creation of deployments.
- `Service.TelemetryService.ConfigureTelemetry`: is about a call that nothing disturbs, for requests whose lookups succeed (no compatible target, connected two-way topology, collector that is not a switch); Lifecycle and Protocol cover concurrent calls, EntryGeneration says when lookups fail.
- `Service.TelemetryService.RemoveIntent`: nothing else runs between its steps; Lifecycle and Protocol cover what does.
- `Service.ConfigureThenDisable`: nothing runs between the two calls; with other calls interleaved, Departures speaks of locks, states and pool, and Updates of counts.
- `Lifecycle.DisableFindsItsIntent`: a commit is one step with an arbitrary outcome and a reservation may fail arbitrarily; the counter of reserved slots is not part of this machine, and a scan that passes the last slot is stuck (PoolInterleaving shows that there is none).
- `Departures.NoLockNoTrace`: calls that look for the empty collection id are excluded with the overlapping ones; CollectionIds says what the empty id does.
- `UpdateRuns.KeptEntryIsInstalled`: keys that updates drift down, and keys of which failed undos took more than they left, are excluded, since it is false for them; WhenInstalledInRun is exact for all keys.
- `UpdateRuns.RunSourceHasSinks`: a source that its own intent counted too often or too little is excluded, since it may belong to neither configuration.
- `Requests.FindTelemetryEntitiesForRequest`: devices of a request exist and are connected, and the target of a raw pair has a link back, since the code panics otherwise; a request's list entries are told apart by their index.
- `Reconcile.Converges`: entries start with distinct ids and known statuses, the deployments have distinct names and a template each, and the SDN controller accepts.
- `DepthFirst.RunDfs`: the source device exists and links lead to existing devices; the code dereferences a missing device otherwise.
- `Forwarding.SwitchEntries`: assumes what the code assumes, a tree, here with a subnet of its own per link and no link from a device to itself.
