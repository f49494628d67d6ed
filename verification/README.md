# scord: a verified model

scord coordinates HPC jobs and their storage: a daemon keeps the jobs, the ad-hoc storages and the dataset transfers
that run in Cargo, a controller next to each ad-hoc storage starts and resizes it, and a C library gives clients access
to both. This project models the parts that carry state or transform text, and proves what they keep.

| file | what it holds |
|---|---|
| `TransferManager`, `BandwidthControl`, `ClientWait` | the transfer manager as a class, the scheduler's pass over it, its control rule, the client's poll loop |
| `TransferProtocol`, `TransferSafety`, `TransferTheorems`, `TransferPass` | clients, handlers, the scheduler thread and Cargo as one state machine; its invariant; results over every run |
| `Registry` | jobs and ad-hoc storages as a value: objects in a heap that only grows, and the maps that lead to them |
| `Managers`, `RpcServer` | the metadata objects, managers and handlers as classes over shared references, proved against `Registry` |
| `RegistryProtocol`, `RegistrySafety`, `RegistryClients`, `RegistryTheorems` | the same handlers with any interleaving of their critical sections and of the identifiers drawn outside the locks; results over every run |
| `RegistryMeaning` | what each handler does to the jobs and storages that can be looked up, in plain terms |
| `AdhocUpdates`, `JobUpdates`, `JobRemovals` | update_adhoc_storage, update_job and remove_job, between whose lookups other handlers may come |
| `SlurmIndex`, `ClientSlots` | the Slurm index, and the client slots when handlers are served one after the other and when they are not |
| `LockGuards`, `GuardConservation` | the lock guards as classes; ownership over every use of any number of guards and locks |
| `CommandTemplates`, `TemplateTheorems`, `TemplateComposition` | command template evaluation, what it means, and how it composes |
| `Controller`, `DeployProtocol` | the controller's handlers, and concurrent deployments |
| `Splitting`, `DatasetRoutes`, `SizeParsing`, `SizeMeaning`, `PathNormalize`, `ConfigTree` | the text kernels |

The concurrent parts share one shape: a `State`, a `Step` type with one constructor per critical section or environment
action, `Enabled` and `Apply`, and `Exec`, which runs a list of steps from the initial state. A result "over every run"
is a lemma about `Exec(steps)` for all `steps`. Steps that throw or answer with an error are steps like any other.
Heap objects are named by their position in a sequence; `RpcServer.Valid` ties the real objects, aliasing included, to
that value.

## What the code does that its text does not say

- `lexical_normalize` with `as_directory` appends an absolute `/`, which replaces the path: the result is always `/`
  (`src/common/utils/utils.cpp:143-145`). A second consecutive `..` does not remove a name, because `remove_filename`
  keeps the separator (`src/common/utils/utils.cpp:121-123`): `SecondUpIsLost` shows it, `AgreesExactly` says when the
  result is the usual one.
- The blocking transfer call returns success for a transfer that failed (`FailedTransferEndsWait`), and for one that is
  still running if its job is removed meanwhile (`RemovedJobEndsWaitEarly`); `PollEndsExactly` and `EarlySuccessExactly`
  say exactly when (`src/lib/c_wrapper.cpp:262-280`, `src/scord/rpc_server.cpp:901-908`).
- `job_manager::remove` erases the Slurm index entry of the job's Slurm id whichever job it names
  (`src/scord/job_manager.hpp:128`), so a shared Slurm id can hide a live job (`SharedSlurmIdHidesJob`); a removal is
  harmless exactly when the id is not shared (`EraseKeepsIndexExactly`).
- `remove_client_info` clears the slot whoever holds it (`src/scord/internal_types.cpp:109-113`), so a job that shares a
  storage can lose its slot to the removal of the other (`SharedStorageLosesClient`); slots stay exact exactly when a
  registration asks for a storage without a live user (`RegisterKeepsSlotsExactly`).
- The scheduler's two thresholds leave no dead band (`src/scord/rpc_server.cpp:1001-1007`): `DirectionExactly` gives the
  one comparison that decides between the signals. The comment above the scheduler says half a second; the code sleeps a
  second (`src/scord/rpc_server.cpp:955-960`).
- `update_adhoc_storage` reads `value()` of an empty `expected` when the storage is unknown, when it is removed before
  the last lookup, or when its controller does not answer, and in the last two cases it may have changed the
  resources (`src/scord/rpc_server.cpp:405-420`, `src/scord/rpc_server.cpp:481-488`): `ThrowsByExample` and
  `RemovedMeanwhileThrows` show it, `RepliesExactly` says when it replies in any run. Its decision to expand or shrink
  uses a count that another update may have overtaken (`StaleCountExpandsWhileShrinking`); `UpdateAsksForWhatItDoes`
  says exactly when it asks for the direction in which it takes the storage, and whose nodes it passes.
- `remove_job` answers no_such_entity for a job that it has just removed if the job's storage has been deregistered
  (`src/scord/rpc_server.cpp:325-335`): `RemovedButNotFound` shows it, `ReportsSuccessExactly` says when it reports
  success in any run.

Each of these is modelled as the code has it.

## Model

| member | source | states |
|---|---|---|
| Transfers.TransferMetadata.constructor | src/scord/internal_types.hpp:122-124 | a new transfer is unmeasured: its bandwidth is the sentinel -1 |
| Transfers.TransferMetadata.Update | src/scord/internal_types.hpp:147-149 | only the measured bandwidth changes |
| Transfers.TransferManager.AllocateId | src/scord/transfer_manager.hpp:47-48 | the ticket is taken without touching the map, modulo 2^64 |
| Transfers.TransferManager.Insert | src/scord/transfer_manager.hpp:50-67 | a taken identifier is refused and nothing changes; otherwise exactly one fresh entry is added |
| Transfers.TransferManager.Create | src/scord/transfer_manager.hpp:45-68 | the identifier is the counter before the call; both outcomes and the whole new map |
| Transfers.TransferManager.Update | src/scord/transfer_manager.hpp:70-83 | one entry's bandwidth is set, or no_such_entity and no change |
| Transfers.TransferManager.Find | src/scord/transfer_manager.hpp:88-99 | the object registered under the identifier, or no_such_entity |
| Transfers.TransferManager.Remove | src/scord/transfer_manager.hpp:104-117 | exactly the one entry goes and is returned, or no_such_entity |
| Transfers.TransferManager.VisitOne | src/scord/rpc_server.cpp:967-1008 | one visit collects a transfer that is completed or failed, stores the reading of a running one, and sends slow down where 1.1 times the reading is above the first limit, speed up where it is not and the reading is not a silent one |
| Transfers.VisitedOneMore | src/scord/rpc_server.cpp:967-1008 | visits in any order add up: each collected identifier and each signal occurs exactly once |
| Transfers.TransferManager.Visit | src/scord/rpc_server.cpp:964-1010 | the locked half of a pass, for every iteration order of the hash map: each completed or failed transfer is collected once, each running one over its first limit is told once to slow down, each one under it with a reading that is not silent once to speed up, no other signal is sent, and exactly the running ones get their reading stored |
| Transfers.PassMeans | src/scord/rpc_server.cpp:964-1010 | whatever fits the summary of a pass steers to the limits, stores the readings and collects what has ended |
| Transfers.TransferManager.RemoveCollected | src/scord/rpc_server.cpp:1012-1015 | exactly the collected identifiers go |
| Transfers.TransferManager.SchedulerPass | src/scord/rpc_server.cpp:958-1016 | an undisturbed pass leaves exactly the pending and running transfers, the running ones with their reading, and sends each over and under its first limit the one right signal |
| BandwidthControl.SilentExactly | src/scord/rpc_server.cpp:998-1007 | no signal is sent exactly for the sentinel and for a stalled transfer limited to zero |
| BandwidthControl.DirectionExactly | src/scord/rpc_server.cpp:1002-1007 | for every reading: slow down iff 1.1 bw > qos, speed up iff 1.1 bw <= qos and the reading is not one of the two silent ones |
| BandwidthControl.OnePass | src/scord/rpc_server.cpp:988-1007 | with a response between e and d to the signal sent, whatever the reading, a pass inside the band stays inside, and outside it gets closer by e |
| BandwidthControl.AfterPasses | src/scord/rpc_server.cpp:957-1007 | after n passes the bandwidth is in the band or n times e closer |
| BandwidthControl.Converges | src/scord/rpc_server.cpp:957-1007 | after distance/e passes the bandwidth is within d of qos/1.1 and stays there for the rest of the run |
| ClientWait.TransferDatasets | src/lib/c_wrapper.cpp:236-284 | a creation error is passed on, and without wait nothing is polled; a wait goes on while every answer says queued or running, ends in success with the first that says the transfer is over or gone, and in the error of the first that is any other error |
| ClientWait.CastKeepsNumber | src/scord/rpc_server.cpp:941 | the daemon casts the number of Cargo's state |
| TransferSafety.StepKeepsInv | src/scord/rpc_server.cpp:799-1016 | every step of every thread and of Cargo keeps the protocol's invariant |
| TransferSafety.RunsKeepInv | src/scord/rpc_server.cpp:799-1016 | every run keeps it, while the counter has not wrapped |
| TransferTheorems.RemovesOnlyEndedTransfers | src/scord/rpc_server.cpp:1012-1015 | in every interleaving, what the scheduler removes is live, its removal succeeds, and Cargo has completed or failed it |
| TransferTheorems.OnlySchedulerRemoves | src/scord/transfer_manager.hpp:104-117 | no other step takes a transfer out, and only insertions bring one in |
| TransferTheorems.CreatedIsLiveOrRemoved | src/scord/transfer_manager.hpp:45-117 | at every moment the created identifiers are the disjoint union of the live and the removed ones |
| TransferTheorems.PassRemovesExactlyWhatItSaw | src/scord/rpc_server.cpp:964-1015 | a pass removes exactly the identifiers it saw terminal; transfers created meanwhile survive it |
| TransferPass.PassCollectsAllEnded | src/scord/rpc_server.cpp:964-1015 | a pass misses nothing: in every interleaving, whatever Cargo had ended when the scheduler took the lock is removed when the pass is over |
| TransferPass.LockedSectionIsVisit | src/scord/rpc_server.cpp:964-1010 | in every interleaving, what the scheduler has collected, signalled and measured when it releases the lock is what `Visit` promises for a pass alone: the same signals to the same transfers |
| TransferPass.StepKeepsPass | src/scord/rpc_server.cpp:964-1010 | no step of anyone else disturbs the pass |
| TransferTheorems.InsertAlwaysSucceeds | src/scord/transfer_manager.hpp:47-67 | before 2^64 tickets, in every interleaving of creates, identifiers are fresh and distinct, the entity_exists branch is not reached, and exactly the new transfer is added |
| TransferTheorems.WrappedCounterCollides | src/scord/transfer_manager.hpp:47-67 | the bound is tight: a run with one ticket more in which a client is told entity_exists |
| TransferTheorems.SuccessMeansEndedOrJobRemoved | src/lib/c_wrapper.cpp:254-283 | a waiting client told success has a transfer that is terminal, unless its job was removed |
| TransferTheorems.EarlySuccessExactly | src/lib/c_wrapper.cpp:258-276 | one step makes a success early iff it is a query answered while the job is gone and the transfer is not terminal |
| TransferTheorems.FailedRpcIsReported | src/lib/c_wrapper.cpp:246-278 | in any run, an RPC that fails, creation or query, is reported as its error, and never turns into a success |
| TransferTheorems.ReturnedIsFinal | src/lib/c_wrapper.cpp:236-284 | whatever a client has been told stays what it was told |
| TransferTheorems.TurnedAwayExactly | src/scord/rpc_server.cpp:815-836 | a creation is turned away with no_such_entity iff the job is unknown, with no_resources iff it has no ad-hoc storage |
| TransferTheorems.PollOutcome | src/scord/rpc_server.cpp:887-953 | an undisturbed poll ends the wait iff the transfer is terminal, collected or not, or the job is gone |
| TransferTheorems.PollEndsExactly | src/lib/c_wrapper.cpp:266-280 | the same in every reachable state |
| TransferTheorems.RemovedJobEndsWaitEarly | src/scord/rpc_server.cpp:901-908 | a run in which the job's removal ends the wait with success while the transfer is running |
| TransferTheorems.FailedTransferEndsWait | src/lib/c_wrapper.cpp:266-283 | a run in which the transfer fails with its job registered, and the waiting client is told success |
| TransferTheorems.NothingIsStuck | src/scord/rpc_server.cpp:926-943 | the metadata and handles a thread has looked up are still there when it uses them |
| Managers.JobMetadata.constructor | src/scord/internal_types.cpp:32-38 | the job's fields |
| Managers.JobMetadata.Update | src/scord/internal_types.cpp:58-61 | only the resources change |
| Managers.JobMetadata.IoProcs | src/scord/internal_types.cpp:50-56 | the number of nodes, zero without resources |
| Managers.AdhocStorageMetadata.constructor | src/scord/internal_types.cpp:63-65 | name, type, uuid, context and resources, and an empty client slot |
| Managers.AdhocStorageMetadata.Update | src/scord/internal_types.cpp:87-90 | only the resources change |
| Managers.AdhocStorageMetadata.AddClientInfo | src/scord/internal_types.cpp:92-107 | an occupied slot is left alone with adhoc_in_use, an empty one is filled |
| Managers.AdhocStorageMetadata.RemoveClientInfo | src/scord/internal_types.cpp:109-113 | the slot is empty afterwards |
| Managers.JobManager.Create | src/scord/job_manager.hpp:43-73 | one fresh job under the counter's identifier; an index entry is added only where there is none |
| Managers.JobManager.Update | src/scord/job_manager.hpp:75-88 | only the named job's resources change, or no_such_entity |
| Managers.JobManager.Find | src/scord/job_manager.hpp:90-102 | the registered object, or no_such_entity |
| Managers.JobManager.FindBySlurmId | src/scord/job_manager.hpp:104-118 | the two nested lookups |
| Managers.JobManager.Remove | src/scord/job_manager.hpp:120-135 | the job goes, and the index entry of its Slurm id with it |
| Managers.AdhocStorageManager.Create | src/scord/adhoc_storage_manager.hpp:79-107 | one fresh storage under the counter's identifier, or entity_exists and no change |
| Managers.AdhocStorageManager.Update | src/scord/adhoc_storage_manager.hpp:109-123 | only the named storage's resources change, or no_such_entity |
| Managers.AdhocStorageManager.Find | src/scord/adhoc_storage_manager.hpp:125-139 | the registered object, or no_such_entity |
| Managers.AdhocStorageManager.Remove | src/scord/adhoc_storage_manager.hpp:141-156 | exactly the one entry goes, or no_such_entity |
| Managers.AdhocStorageManager.AddClientInfo | src/scord/adhoc_storage_manager.hpp:158-170 | the slot rule through the identifier |
| Managers.AdhocStorageManager.RemoveClientInfo | src/scord/adhoc_storage_manager.hpp:172-181 | the slot is cleared through the identifier, or no_such_entity |
| RpcServer.RpcServer.constructor | src/scord/rpc_server.cpp:76-112 | the daemon starts with no job and no storage |
| RpcServer.RpcServer.RegisterAdhocStorage | src/scord/rpc_server.cpp:350-388 | over the real objects, the handler refines the abstract one, reply included |
| RpcServer.RpcServer.RegisterJob | src/scord/rpc_server.cpp:191-284 | the handler refines lookup, creation and listing; the job's pointer and the slot hold the very objects |
| RpcServer.RpcServer.UpdateJob | src/scord/rpc_server.cpp:286-311 | success iff the job is registered, and then it has the new resources; the handler refines the abstract update |
| RpcServer.RpcServer.RemoveJob | src/scord/rpc_server.cpp:313-348 | the handler refines erasing the job and clearing the slot of the storage it required |
| RpcServer.RpcServer.UpdateAdhocStorage | src/scord/rpc_server.cpp:390-493 | the three lookups one after the other: a known storage gets the new nodes, unless it has no endpoint they are sent with "expand" iff they are more than before, and the reply is the controller's code iff it answers; anything else is the exception |
| RpcServer.RpcServer.RemoveAdhocStorage | src/scord/rpc_server.cpp:495-519 | the entry goes; jobs keep the object |
| RpcServer.RpcServer.Query | src/scord/rpc_server.cpp:149-189 | the controller address, uuid and node count of the job the index leads to; a job without storage is a null pointer |
| RpcServer.RpcServer.CreateJob | src/scord/job_manager.hpp:43-73 | the creation section keeps objects and abstract state in step |
| RpcServer.RpcServer.ListClient | src/scord/rpc_server.cpp:238-242 | the listing section does, whatever its ignored outcome |
| RegistryMeaning.RegisterJobRefuses | src/scord/rpc_server.cpp:214-230 | register_job turns an unknown storage down and changes nothing |
| RegistryMeaning.RegisterJobStores | src/scord/rpc_server.cpp:191-284 | register_job stores the job as it was given, under a new identifier, linked to the storage it asked for; other jobs stay as they are |
| RegistryMeaning.RegisterJobFillsSlot | src/scord/rpc_server.cpp:238-242 | and makes it the client of that storage iff there was none; nothing else of a storage changes |
| RegistryMeaning.RemoveJobMeans | src/scord/rpc_server.cpp:313-348 | remove_job takes away that job, its Slurm id and the client of its storage and nothing else, and which code it answers |
| RegistryMeaning.UpdateJobMeans | src/scord/rpc_server.cpp:286-311 | update_job changes the resources of that job and nothing else, and succeeds iff it exists |
| RegistryMeaning.RegisterAdhocStores | src/scord/rpc_server.cpp:350-388 | register_adhoc_storage stores the storage as it was given, without a client, under a new identifier |
| RegistryMeaning.RemoveAdhocMeans | src/scord/rpc_server.cpp:495-519 | remove_adhoc_storage takes that storage away and nothing else, and succeeds iff it was there |
| RegistryMeaning.UpdateAdhocMeans | src/scord/rpc_server.cpp:390-493 | update_adhoc_storage changes the nodes of that storage and nothing else; the call it sends and how it ends |
| RegistrySafety.StepAdvances | src/scord/rpc_server.cpp:191-519 | every critical section of every handler keeps the heap, index, slot and thread invariants, and changes of an object only resources and client slot |
| RegistryTheorems.RunsKeepInv | src/scord/rpc_server.cpp:191-519 | so does every run |
| RegistryTheorems.CreateAlwaysSucceeds | src/scord/job_manager.hpp:48-72 | before 2^64 tickets, in every interleaving of registrations, a job's identifier is fresh and with no other registration, and the entity_exists branch is not reached |
| RegistryTheorems.CreateAdhocAlwaysSucceeds | src/scord/adhoc_storage_manager.hpp:83-106 | the same for the identifiers of ad-hoc storages |
| RegistryTheorems.HandlersAreNotStuck | src/scord/rpc_server.cpp:191-493 | in every reached state each handler's next section can run: the objects a thread has looked up are still there |
| RegistryClients.StepKeepsClients | src/scord/rpc_server.cpp:238-242 | a step that does not remove a half-registered job keeps every client live or being removed |
| RegistryTheorems.PoliteRunsKeepClients | src/scord/rpc_server.cpp:191-348 | so does every run of such steps |
| RegistryTheorems.ClientIsLiveAndPointsBack | src/scord/internal_types.cpp:92-113 | a registered storage's client is a job whose pointer is that very object, and it is live or about to be unlisted |
| RegistryTheorems.NeverDisplaced | src/scord/internal_types.cpp:92-107 | a slot is filled only when empty and by a registration, and emptied only by a removal |
| RegistryTheorems.EnlistKeepsSlotsExactly | src/scord/rpc_server.cpp:238-242 | without the rely condition, listing breaks the slots iff it puts a dead job into a free slot of a registered storage |
| RegistryTheorems.RudeRemovalLeavesDeadClient | src/scord/rpc_server.cpp:232-242 | the rely condition is needed: a run that leaves a dead client for good |
| RegistryTheorems.RegisterAloneIsRegisterJob | src/scord/rpc_server.cpp:191-284 | the critical sections of register_job, run alone, amount to the whole handler |
| RegistryTheorems.RemoveAloneIsRemoveJob | src/scord/rpc_server.cpp:313-348 | the same for remove_job |
| RegistryTheorems.RemovedButNotFound | src/scord/rpc_server.cpp:325-335 | a job whose storage is gone is removed, and the reply is no_such_entity |
| JobRemovals.ReportsSuccessExactly | src/scord/rpc_server.cpp:325-335 | in any run, removing a live job removes it, and reports success iff it required no storage or one that was registered and that nobody has removed before the removal is through |
| JobUpdates.ResourcesAreTheLastSet | src/scord/job_manager.hpp:75-88 | in any run a registered job has the resources that update_job gave it last, and keeps those it had, and everything else, if there was no update |
| JobUpdates.RegistrationStores | src/scord/rpc_server.cpp:191-284 | in any run, what a registration creates is what its request asked for, whatever came between its lookup and its creation |
| JobUpdates.ResourcesOverALife | src/scord/rpc_server.cpp:191-311 | so a job has the resources of the last update_job for it, or those it was registered with |
| RegistryTheorems.RegisterAdhocAloneIsRegisterAdhoc | src/scord/rpc_server.cpp:350-388 | the same for register_adhoc_storage |
| RegistryTheorems.RunsEvolve | src/scord/internal_types.cpp:58-113 | over any continuation of any run, objects stay and keep everything but resources and slot, and no removed job comes back |
| RegistryTheorems.AddressesNeverChange | src/scord/internal_types.cpp:77-90 | a job's identity, requirements and storage object, and that object's name, uuid and context with both addresses, never change, even after the storage is removed |
| RegistryTheorems.ResizeIsSharedNotCopied | src/scord/adhoc_storage_manager.hpp:109-123 | a resize is seen by exactly the jobs that require the storage, and no job's own copy changes |
| AdhocUpdates.UpdateAloneIsUpdateAdhoc | src/scord/rpc_server.cpp:390-493 | the three sections of update_adhoc_storage, run alone, amount to the whole handler |
| AdhocUpdates.RegisteredUntilDropped | src/scord/adhoc_storage_manager.hpp:109-156 | in any run a storage stays registered until its identifier is removed, and never comes back |
| AdhocUpdates.RepliesExactly | src/scord/rpc_server.cpp:405-488 | in any run, an update that has found its storage replies a code iff the controller answers that code and nobody has removed the storage since, and throws otherwise; the decision is that of the first count, the nodes sent are those of the last lookup |
| AdhocUpdates.NodesAreTheLastSet | src/scord/adhoc_storage_manager.hpp:109-123 | in any run a registered storage has the nodes that an update set last, and keeps those it had if none did |
| AdhocUpdates.DirectionIsRightExactly | src/scord/rpc_server.cpp:405-428 | in any run an update asks for the direction in which it takes the storage iff the count of its first lookup and the nodes it replaces compare alike with its own |
| AdhocUpdates.UpdateAsksForWhatItDoes | src/scord/rpc_server.cpp:405-488 | the whole update of a storage that stays: "it asks for an expansion iff it grows the storage" holds iff what others set between its first two lookups compares with its nodes as its count did, and so if they set nothing; the nodes it passes are those set last, its own if nobody else sets any |
| AdhocUpdates.ThrowsByExample | src/scord/rpc_server.cpp:405-488 | an unknown storage, and a silent controller after the resources were set, make it throw |
| AdhocUpdates.RemovedMeanwhileThrows | src/scord/rpc_server.cpp:420-488 | a run in which a removal between the lookups makes it throw |
| AdhocUpdates.StaleCountExpandsWhileShrinking | src/scord/rpc_server.cpp:413-488 | a run in which an update that takes the storage from two nodes to one sends the request to expand it |
| SlurmIndex.IndexHitIsLive | src/scord/job_manager.hpp:104-118 | in every run, an index hit leads to a live job with that Slurm id; the nested lookup never fails after a hit |
| SlurmIndex.EraseKeepsIndexExactly | src/scord/job_manager.hpp:120-135 | a removal keeps the index complete iff no other live job carries the same Slurm id |
| SlurmIndex.FreshRunsKeepIndex | src/scord/job_manager.hpp:53-61 | runs that never reuse a live job's Slurm id keep the index complete |
| SlurmIndex.FindAgreesWithScan | src/scord/job_manager.hpp:104-118 | in such runs the lookup agrees with a scan of the live jobs for every Slurm id |
| SlurmIndex.SharedSlurmIdHidesJob | src/scord/job_manager.hpp:61-128 | the condition is needed: removing one of two jobs under one Slurm id hides the other |
| ClientSlots.RegisterKeepsSlotsExactly | src/scord/rpc_server.cpp:191-284 | a registration keeps "the slot is exactly the live user" iff the storage it asks for has no live user |
| ClientSlots.RemoveKeepsSlots | src/scord/rpc_server.cpp:313-348 | a removal always keeps it |
| ClientSlots.ExclusiveRunsKeepSlotsExact | src/scord/rpc_server.cpp:191-348 | if no registration shares a storage in use, every slot is exactly its live user, or empty if there is none |
| ClientSlots.SlotIsTheUserOrEmpty | src/scord/rpc_server.cpp:191-348 | with handlers interleaved, the slot of a storage with at most one live user is that user, empty, or a job about to be unlisted |
| ClientSlots.SharedStorageLosesClient | src/scord/internal_types.cpp:109-113 | sharing loses a live job's slot |
| LockGuards.SharedMutex.Lock | src/common/abt_cxx/shared_mutex.hpp:89-92 | a free lock gets its writer; on a lock that is held the caller waits and nothing changes |
| LockGuards.SharedMutex.LockShared | src/common/abt_cxx/shared_mutex.hpp:101-104 | a lock without a writer gets one more reader; otherwise the caller waits and nothing changes |
| LockGuards.SharedMutex.Unlock | src/common/abt_cxx/shared_mutex.hpp:94-109 | the writer, or else one reader, lets go |
| LockGuards.UniqueLock.constructor | src/common/abt_cxx/shared_mutex.hpp:126-130 | the guard owns the lock once it is free, and until then nothing changes |
| LockGuards.UniqueLock.Lock | src/common/abt_cxx/shared_mutex.hpp:160-173 | not_permitted iff there is no lock, would_deadlock iff it is owned already, the writer iff the lock is free, and the wait otherwise: the very step of the state machine |
| LockGuards.UniqueLock.Unlock | src/common/abt_cxx/shared_mutex.hpp:175-184 | the error, or the lock is let go: the very step of the state machine |
| LockGuards.UniqueLock.Swap | src/common/abt_cxx/shared_mutex.hpp:186-190 | the two guards change places |
| LockGuards.UniqueLock.Move | src/common/abt_cxx/shared_mutex.hpp:141-145 | ownership passes on and the source is left unassociated |
| LockGuards.UniqueLock.MoveAssign | src/common/abt_cxx/shared_mutex.hpp:147-158 | what was owned is let go exactly once, ownership passes on; assigned to itself the guard unlocks and ends unassociated |
| LockGuards.UniqueLock.Destroy | src/common/abt_cxx/shared_mutex.hpp:132-135 | an owned lock is let go |
| LockGuards.SharedLock.constructor | src/common/abt_cxx/shared_mutex.hpp:237-240 | the guard is one more reader once there is no writer, and until then nothing changes |
| LockGuards.SharedLock.Lock | src/common/abt_cxx/shared_mutex.hpp:262-322 | not_permitted iff there is no lock, would_deadlock iff it is owned already, one reader more iff there is no writer, and the wait otherwise: the very step of the state machine |
| LockGuards.SharedLock.Unlock | src/common/abt_cxx/shared_mutex.hpp:269-278 | the error, or one reader less: the very step of the state machine |
| LockGuards.SharedLock.Swap | src/common/abt_cxx/shared_mutex.hpp:282-286 | the two guards change places |
| LockGuards.SharedLock.Move | src/common/abt_cxx/shared_mutex.hpp:252-254 | ownership passes on and the source is left unassociated |
| LockGuards.SharedLock.MoveAssign | src/common/abt_cxx/shared_mutex.hpp:256-260 | what was owned is let go exactly once, ownership passes on; assigned to itself nothing changes |
| LockGuards.SharedLock.Destroy | src/common/abt_cxx/shared_mutex.hpp:242-246 | an owned lock is let go |
| GuardConservation.StepKeepsInv | src/common/abt_cxx/shared_mutex.hpp:119-326 | every guard operation keeps the accounts of every lock |
| GuardConservation.RunsConserveOwnership | src/common/abt_cxx/shared_mutex.hpp:119-326 | after any run, a lock's reader count is the number of owning shared guards, it has a writer iff exactly one unique guard owns it, and never both |
| GuardConservation.MutualExclusion | src/common/abt_cxx/shared_mutex.hpp:119-326 | an owner through a unique guard is the only owner |
| GuardConservation.WaitsExactly | src/common/abt_cxx/shared_mutex.hpp:119-326 | lock() waits iff some guard owns the lock in a way that excludes the caller |
| GuardConservation.NestedReadNeverWaits | src/scord/job_manager.hpp:104-118 | the nested read lock never waits: while a guard owns the lock shared, another one gets it at once |
| GuardConservation.AllDestroyedAllFree | src/common/abt_cxx/shared_mutex.hpp:132-246 | with all guards destroyed every lock is free |
| CommandTemplates.Search | src/scord-ctl/command.cpp:120-126 | the regular expression search finds the leftmost keyword, whatever the order of alternatives |
| CommandTemplates.Substitute | src/scord-ctl/command.cpp:118-133 | the loop computes the leftmost substitution, for every order of alternatives |
| CommandTemplates.Command.Eval | src/scord-ctl/command.cpp:90-136 | the three keywords get the identifier, the directory, and a value in double quotes that splits at commas into the nodes |
| CommandTemplates.Command.EvalResize | src/scord-ctl/command.cpp:138-182 | the same for the identifier and the nodes; the directory's keyword is not bound |
| CommandTemplates.Command.AsVector | src/scord-ctl/command.cpp:184-197 | the tokens of the evaluated command line |
| CommandTemplates.BindingsAreUnique | src/scord-ctl/command.cpp:109-160 | identifier, directory and nodes determine all that is inserted |
| TemplateTheorems.ParseDecomposes | src/scord-ctl/command.cpp:118-133 | a template decomposes into literals and keyword occurrences |
| TemplateTheorems.DecompositionIsUnique | src/scord-ctl/command.hpp:109-113 | in only one way |
| TemplateTheorems.ExpandIsSimultaneous | src/scord-ctl/command.cpp:126-133 | evaluation replaces all occurrences of that decomposition at once, and inserted values are never rescanned |
| TemplateTheorems.OccurrencesAreDisjoint | src/scord-ctl/command.hpp:109-113 | keyword occurrences never overlap |
| TemplateTheorems.EveryOccurrenceIsAPiece | src/scord-ctl/command.cpp:126-133 | so every occurrence, wherever it stands, is one that gets replaced |
| TemplateTheorems.SpacesOfExpansion | src/scord-ctl/command.cpp:126-133 | the spaces of the result are those of the template and those of the inserted values |
| TemplateTheorems.FieldsCommute | src/scord-ctl/command.cpp:184-197 | if the inserted values have no spaces, splitting the result is evaluating each field |
| TemplateTheorems.TokensCommuteExactly | src/scord-ctl/command.cpp:90-197 | tokenising commutes with evaluation, and the argument count is the template's, iff no keyword of the template has a value with a space and a non-empty template has a literal character or a keyword with a non-empty value |
| TemplateTheorems.PlainValuesKeepArguments | src/scord-ctl/command.cpp:90-197 | in particular for non-empty values without spaces |
| TemplateTheorems.EvaluationKeepsArguments | src/scord-ctl/command.cpp:90-197 | in both overloads, a non-empty space-free identifier and directory and space-free nodes keep the template's arguments: all the nodes stay in one |
| TemplateTheorems.NodesCanBeReadBack | src/scord-ctl/command.cpp:113-159 | nodes without a comma are what the inserted value, its quotes taken off, splits into |
| TemplateTheorems.KeywordsMean | src/scord-ctl/command.hpp:109-113 | which text is the place of which value, what stays |
| TemplateComposition.OnePassIsTwoRounds | src/scord-ctl/command.cpp:90-182 | without stray braces, one pass equals evaluating with part of the bindings and then with the rest |
| TemplateComposition.ExpansionStaysPlain | src/scord-ctl/command.cpp:90-182 | and the result is again without stray braces, so rounds compose |
| TemplateComposition.OneByOneInAnyOrder | src/scord-ctl/command.cpp:90-136 | so the three keywords can be replaced one by one in any of the six orders |
| TemplateComposition.DeployIsResizeThenDirectory | src/scord-ctl/command.cpp:90-182 | the three-keyword overload is the two-keyword one followed by the directory |
| TemplateComposition.EvaluationIsIdempotent | src/scord-ctl/command.cpp:90-136 | evaluating again changes nothing |
| TemplateComposition.BracesInValuesMatter | src/scord-ctl/command.cpp:126-133 | a value that brings in a keyword separates one pass from two rounds |
| Controller.Server.Exec | src/scord-ctl/command.cpp:231-300 | the command line is handed over; failure becomes subprocess_error |
| Controller.Server.CreateDirectories | src/scord-ctl/rpc_server.cpp:160-166 | the directory and all those above it are there, or those that had been made before a failure, no other comes or goes, and whether the last one is new |
| Controller.Server.DeployAdhocStorage | src/scord-ctl/rpc_server.cpp:117-202 | in each of the six endings the code, the reported directory and the directories there are; only where the directory could be created does the startup template run, with identifier, new directory and nodes |
| Controller.Server.ResizeAdhocStorage | src/scord-ctl/rpc_server.cpp:204-323 | an expand request runs the expand template, a shrink request the shrink template, with identifier and nodes, and no directory is touched; who is turned away, and with which code |
| Controller.Server.TerminateAdhocStorage | src/scord-ctl/rpc_server.cpp:326-375 | the shutdown template runs with identifier and directory and no nodes, and the directory is left in place; who is turned away, and with which code |
| Controller.PathTextFields | src/scord-ctl/rpc_server.cpp:147-176 | the text of a directory splits at the slashes into its components |
| Controller.DeployMeans | src/scord-ctl/rpc_server.cpp:117-202 | the same for the deployment that the concurrent requests are compared with |
| DeployProtocol.StepKeepsPathInv | src/scord-ctl/rpc_server.cpp:153-187 | creations, deletions and startups of each directory balance in every step |
| DeployProtocol.StartsAtMostOncePerCreation | src/scord-ctl/rpc_server.cpp:147-187 | in any interleaving the startup command runs at most once per directory, plus once per outside deletion, even when two requests pass the exists check; as many requests report it as ran it |
| DeployProtocol.DeployAloneIsDeploy | src/scord-ctl/rpc_server.cpp:147-187 | the steps of one request, run alone, give the directories, the reply and the startup of the whole handler, in every ending |
| DeployProtocol.DeployCanRunAlone | src/scord-ctl/rpc_server.cpp:147-187 | and the request always can run alone: a missing directory has a first missing component |
| DeployProtocol.MakeUpToMakes | src/scord-ctl/rpc_server.cpp:160-166 | component by component, exactly the directories up to a given one appear |
| DeployProtocol.DeployUndisturbed | src/scord-ctl/rpc_server.cpp:147-187 | from any state, a request for a missing directory can create and start it |
| DeployProtocol.DeletionAllowsSecondStart | src/scord-ctl/rpc_server.cpp:153-160 | the bound is tight |
| Splitting.Split | src/lib/utils.cpp:32-44 | the loop computes the fields |
| Splitting.RejoinFields | src/lib/utils.cpp:32-44 | the fields rejoin to the text and hold no separator |
| Splitting.FieldsRejoin | src/lib/utils.cpp:32-44 | and are the only such parts |
| Splitting.FieldCount | src/lib/utils.cpp:32-44 | there is one more field than separators |
| Splitting.SplitWithGetline | cli/scord_adhoc.cpp:50-59 | the getline loop computes the fields without an empty last one |
| Splitting.SplitsAgreeExactly | cli/scord_adhoc.cpp:50-59 | the two splits agree iff the text is not empty and does not end in the separator; otherwise they differ in one empty field at the end |
| Splitting.AsVector | src/scord-ctl/command.cpp:184-197 | the tokeniser gives the fields at spaces, none for the empty text |
| DatasetRoutes.ParseOfPrint | src/lib/utils.cpp:48-99 | parsing what plain routes print as gives them back |
| DatasetRoutes.PrintOfParse | src/lib/utils.cpp:48-99 | printing what a text parses to gives the text back |
| DatasetRoutes.ParsesExactly | src/lib/utils.cpp:60-72 | a text parses iff it is not empty and each segment has exactly one '=' |
| DatasetRoutes.ParseDatasetRoutes | src/lib/utils.cpp:48-99 | success and result iff the text parses, the pointers are there and memory suffices; otherwise which error, by what stands after the routes created so far, and that those are lost |
| SizeParsing.RoundIsExact | src/common/utils/utils.cpp:98-100 | binary64 holds every integer up to 2^53 |
| SizeParsing.RoundIsNearest | src/common/utils/utils.cpp:98-100 | rounding moves a value by at most half a unit in the last place |
| SizeParsing.ScanIsFirst | src/common/utils/utils.cpp:68-88 | the scan's choice ends the text, and no earlier entry does |
| SizeParsing.DetermineUnit | src/common/utils/utils.cpp:68-88 | the loop's position and factor are those of the first table entry that ends the text at its first occurrence |
| SizeParsing.EarlierIsLonger | src/common/utils/utils.cpp:50-55 | of two units that are suffixes of a text, the earlier table entry is the longer |
| SizeParsing.ScanTakesLongestSuffix | src/common/utils/utils.cpp:68-88 | first match is longest suffix: no unit that the text ends with is longer than the one the scan settles on |
| SizeParsing.ScanFindsTheUnit | src/common/utils/utils.cpp:68-97 | the scan accepts and converts exactly what the grammar "digits, then at most one unit" does |
| SizeParsing.ParseSize | src/common/utils/utils.cpp:39-101 | the parser computes the grammar's result on the text without white space: a size, either exception, or the undefined conversion |
| SizeParsing.AcceptsExactly | src/common/utils/utils.cpp:68-97 | accepted iff digits followed by at most one listed unit, and then with the product of the two |
| SizeParsing.ExactUpToTwoTo53 | src/common/utils/utils.cpp:98-100 | the product is exact up to 2^53 |
| SizeParsing.InexactBeyond | src/common/utils/utils.cpp:98-100 | and need not be beyond |
| SizeMeaning.StripSpacesMeans | src/common/utils/utils.cpp:59-65 | exactly the six white space characters are dropped, and everything else stays in its place |
| SizeMeaning.NatOfDecimal | src/common/utils/utils.cpp:98 | the digits are read as a decimal number |
| SizeMeaning.DecimalOfNatOf | src/common/utils/utils.cpp:98 | and, without leading zeros, are its decimal representation |
| SizeMeaning.UnitsMean | src/common/utils/utils.cpp:42-56 | what each of the ten units multiplies with |
| SizeMeaning.SpacingLeaves53Bits | src/common/utils/utils.cpp:98-100 | the distance of neighbouring doubles is the power of two that leaves 53 bits |
| SizeMeaning.RoundMeans | src/common/utils/utils.cpp:98-100 | rounding gives the nearest double, and of two equally near the even one |
| SizeMeaning.TooLargeExactly | src/common/utils/utils.cpp:98 | out_of_range iff the number rounds to 2^1024 or more |
| SizeMeaning.ConversionIsClose | src/common/utils/utils.cpp:98-100 | a size is at most three parts in 2^53 off the exact product, and below 2^64; the conversion is undefined only where the product, give or take as much, is not |
| PathNormalize.LexicalNormalize | src/common/utils/utils.cpp:105-148 | the loop over the text computes the stack form of the path's elements; as_directory always gives the root |
| PathNormalize.AppendElement | src/common/utils/utils.cpp:131-137 | appending an element to a built path's text |
| PathNormalize.RemoveElement | src/common/utils/utils.cpp:121-127 | remove_filename pops a name only where no separator stands at the end |
| PathNormalize.NormalIsClean | src/common/utils/utils.cpp:105-148 | the result is absolute, has no '.' and no '..', and normalising it again changes nothing |
| PathNormalize.AgreesExactly | src/common/utils/utils.cpp:119-139 | its names are those of the usual normal form iff no '..' directly follows another one below the root |
| PathNormalize.NormalIsExactly | src/common/utils/utils.cpp:105-148 | exactly which names the result has, each after one separator: a ".." takes the name before it away unless another ".." has just done so; and exactly when a separator stands at the end |
| PathNormalize.SecondUpIsLost | src/common/utils/utils.cpp:121-127 | "/a/b/../.." becomes "/a/" |
| ConfigTree.ParseNode | src/scord/scord.cpp:60-98 | the recursion with its prefix argument gives the items of the node's leaves, or the exception |
| ConfigTree.CollectInputs | src/scord/scord.cpp:84-95 | the values of a scalar or of a sequence's scalar children |
| ConfigTree.ValuesMean | src/scord/scord.cpp:84-95 | the values of a list are its scalars in order, children without a value dropped |
| ConfigTree.LeavesAreReached | src/scord/scord.cpp:65-80 | the leaves are exactly what the tree's key paths lead to |
| ConfigTree.KeyGoesToPrefix | src/scord/scord.cpp:66-76 | passing a key down as prefix does what the key in the path does |
| ConfigTree.OneItemPerLeaf | src/scord/scord.cpp:60-98 | refused iff the document is no map or a leaf's last key is empty; otherwise one item per leaf in document order, named by its last key, and where no key is empty parents and name are its key path |
| ConfigTree.RebuildsExactly | src/scord/scord.cpp:60-98 | the tree rebuilt from the items is the original iff no map below is empty or directly follows one under the same key |
| ConfigTree.RebuildsUnique | src/scord/scord.cpp:60-98 | in particular for unique keys and no empty maps |
| ConfigTree.GivesBackExactly | src/scord/scord.cpp:60-98 | the items give back the very same tree iff moreover every leaf is a list of scalars |

## Left out

- RPC transport, endpoint lookup, serialization and response classes: an RPC is a step that may fail; the handlers' replies are return values.
- Redis, logging, formatting, daemonisation, signals and pidfiles.
- Cargo: a transfer is a handle with a monotone status and a bandwidth reading. The daemon casts Cargo's state to its own; the order pending, running, completed, failed is assumed (`src/scord/rpc_server.cpp:941`). Cargo is not part of this model.
- Floating-point rounding of bandwidths: the control rule is over reals.
- `ADM_transfer_datasets_1`, which has the same wait loop with one limit for all datasets (`src/lib/c_wrapper.cpp:287-335`).
- RpcServer.RpcServer.constructor: the registration of the RPCs and the start of the scheduler thread; `SchedLock` may come at any time.
- The shutdown flag and the sleeping of the scheduler and of the poll loop: a run may stop anywhere.
- Fairness of the lock: an acquisition that finds the lock taken waits, and when it is retried is not said, so starvation and deadlock are not covered; in the protocols an acquisition is the step at which it completes, and `find_by_slurm_id` with its nested read lock is one section.
- The lock type's own moves and its creation errors.
- `release` on guards: it gives up ownership without unlocking, so no conservation can hold.
- The random choice of uuids: a new storage's uuid is an input.
- deploy_adhoc_storage and terminate_adhoc_storage of the daemon, which forward to the controller; the file system storage manager, which is the same map pattern without links.
- The `emplace failed` branches of the managers: the lookup before them has just shown the key absent.
- Controller.Server.Exec: fork, exec and the environment; whether the subprocess works is an input. `joinEnvironments` only concatenates two arrays.
- DeployProtocol.StepKeepsPathInv: a component may be created whether or not its parent still exists, which allows more runs than the file system does.
- `dataset_process`, the type conversions and allocation in the C library, and the unimplemented API calls.
- DatasetRoutes.ParseDatasetRoutes: memory is counted in route objects; the two dataset objects inside each are not counted apart.
- ConfigTree.ParseNode: anchors, tags and multi-document streams of YAML; an empty document is a scalar root. The YAML parser and the controller's configuration file are not part of this model.
- PathNormalize.LexicalNormalize: root names, which POSIX paths do not have.
- The Slurm plugin.
