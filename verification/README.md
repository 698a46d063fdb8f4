# Aura: replicated state machines, modelled and proved in Dafny

Aura is a peer-to-peer identity and messaging platform written in Rust. This
project models seven of its components as they behave over whole runs and proves
what each keeps. `dafny verify dfyconfig.toml` checks everything.

| component | files | main results |
|---|---|---|
| Anti-entropy merge | `AntiEntropy`, `AntiEntropyReplay`, `AntiEntropyConfluence`, `AntiEntropyAdmission`, `AntiEntropyAtomicity` | every logged operation was attested for the target it names; the oplog replays in one sweep after any run of merges, failed ones included; success, accepted operations and known states do not depend on batch order; a merge succeeds exactly when its batch is fresh and derivable; exactly when it is all or nothing |
| Reconfiguration controller | `Coherence`, `Delegation`, `Ordering`, `RuntimeUpgrade` | the checker reports exactly the violations there are; exactly which delegations succeed; custody of every session over every run, with receipts that tell both ends; the whole upgrade snapshot as a closed form of the event history; exactly which upgrades are executed, and each refusal's reason |
| Task supervisor | `TaskAccounting`, `CancellationTree`, `CancellationTreeHistory` | every spawned task is accounted for exactly once under every interleaving; a group reads as cancelled exactly when a request on it or an ancestor was heard, and a task is woken exactly then or when an ancestor has lost its sender |
| Distributed key derivation | `Dkd`, `DkdAdmission`, `DkdRefusal`, `DkdDerivation`, `DkdAgreement` | the exchanges succeed exactly when every participant is heard once in each phase, in authentic messages whose reveals open their commitments, and every failure names a true defect; the KDF input identifies session and contributors, whatever the arrival order; two devices get one key exactly when they saw the same commitments; every device of an honest session gets it |
| Broadcaster | `OpCache`, `Backpressure`, `BackpressureHistory` | the cache is the last admitted CIDs; pending announcements are bounded by M - 1 + N and the bound is attained; an announcement is pending exactly when some push found every listed peer at its limit and nothing has cleared it since |
| Fact reducers | `AuthView`, `Proposals`, `Quorum` | views and statuses equal closed forms over the fact log; locality and harmless reorderings; exact conditions for the threshold arithmetic and for quorum intersection |
| Persistent sync handler | `PersistentSync` | after any history, with writes that fail and processes that stop or go on: exactly when the store loads, what loading gives, exactly when that is the cache, what each merge returns, and that a store that fails to load never loads again |

`Common` holds finite-set facts shared by the proofs.

How the models are built:

- A sequential stateful operation is a class method proved equal to a function from
  the old state to the new one. The theorems are about those functions and about
  runs of them.
- Concurrency is interleaving: the task supervisor, the cancellation tree and eager
  pushes are transition systems whose steps are the critical sections of the source.
- Cryptography, hashing, tree application and serialization are records of total
  functions passed as parameters. Every theorem holds for all of them; an
  assumption about them (a state key determines its state, a hash is
  collision-free) is a named hypothesis of the theorem that needs it.
- Clocks, journal outcomes, storage write outcomes, received messages, generated
  session ids and randomness are parameters.
- Iteration over hash maps is an arbitrary choice of the next key.
- Integers are unbounded except where the source narrows or wraps them: the
  approval counter, threshold products, `as u16`, `as u32` and saturating
  additions are written out. Products wrap, as they do in a release build.

Where the code and its documentation or naming differ, the model follows the code:

- `request_cancellation` sets a watch channel through `send`, which changes nothing
  when there is no live receiver. A request on a group that nobody listens to is
  lost (`CancellationTree.CancelReaches`), also for a task that is registered but has
  not subscribed yet (`CancellationTree.RequestReachesTask`,
  `CancellationTree.RequestMissesTask`).
- A child group does not keep its parent alive. Dropping the last handle of a parent
  wakes the tasks of its descendants as cancelled, although no token reads as
  cancelled (`CancellationTree.DroppedParentWakes`).
- `force_abort_remaining` removes a task that has not attached its handle yet
  without stopping it, and still reports it as aborted
  (`TaskAccounting.AbortReachesAttachedOnly`, `TaskAccounting.AbortReachesNobody`).
- `delegate` accepts more than delegations by the owner: a former delegator may
  name the current owner as receiver (`Delegation.DelegateSucceedsIff`,
  `Delegation.FormerDelegatorAccepted`). A receiver
  seen for the first time gets a footprint without the schema stamp
  (`Delegation.StampsOverRuns`).
- Terminal proposal statuses are final for votes only. A later closing fact
  replaces an earlier one, and the proposal id in a fact is not compared with that
  of the proposal (`Proposals.StatusClosedForm`).
- The recount with a total counts approvals by anybody. Outsiders can pass a
  unanimous proposal without a single member (`Proposals.OutsidersPass`), and two
  proposals can pass without a common approver whatever the threshold
  (`Proposals.OutsidersShareNobody`).
- The two parent checks in `verify_operation` cannot fail on a state found under
  the operation's parent key (`AntiEntropyConfluence.ParentChecksRedundant`).
- Merges are not atomic: operations accepted before an error stay in the oplog, and
  resending the batch is then refused as a replay (`AntiEntropyAtomicity.PartialMerge`,
  `AntiEntropyAtomicity.ResendRefused`).
- The verification proof and the combined commitment of a key derivation list the
  commitments in the order of arrival, each device's own first. So devices that
  derive one key give different proofs and combined commitments as soon as their
  randomness differs (`DkdAgreement.ResultsAgree`, `DkdAgreement.HonestProofsDiffer`,
  `DkdAgreement.SameKeyOtherProof`), although the proof is documented as one that any
  participant with the key can check.
- The KDF input does not mark where the application id ends and the purpose begins
  (`DkdDerivation.BoundaryUnmarked`).
- A percentage threshold of 51 or more does not guarantee a common voter once its
  product wraps (`Quorum.MajorityWraps`).
- A failed operation write leaves the operation in the cache of the persistent sync
  handler, so a later index write can name an operation that is not stored
  (`PersistentSync.LostWriteDangles`). With colliding hashes the store can load and
  still differ from the cache (`PersistentSync.CollisionDiffers`).

## Model

| member | source | states |
|---|---|---|
| AntiEntropy.Pass | crates/aura-anti-entropy/src/anti_entropy.rs:279-300 | one sweep splits its operations into accepted and left, losing none, and never ends as orphaned by itself |
| AntiEntropy.Sweep | crates/aura-anti-entropy/src/anti_entropy.rs:279-289 | the inner loop computes the specified sweep: known states, accepted operations, remaining operations or refusal |
| AntiEntropy.Drain | crates/aura-anti-entropy/src/anti_entropy.rs:364-391 | the outer loop computes the specified worklist and ends because each round with progress shrinks what is pending |
| AntiEntropy.BuildKnownStates | crates/aura-anti-entropy/src/anti_entropy.rs:268-304 | rebuilding from the anchor equals the worklist over the oplog, orphans reported as a broken parent chain |
| AntiEntropy.AntiEntropyHandler.constructor | crates/aura-anti-entropy/src/anti_entropy.rs:117-126 | a new handler has an empty oplog |
| AntiEntropy.AntiEntropyHandler.MergeRemoteOps | crates/aura-anti-entropy/src/anti_entropy.rs:330-394 | result and new oplog are those of the specified merge, error paths included; anchor and rules stay. What gets logged is in AntiEntropyAdmission.LoggedWasAttested, why a merge fails in AntiEntropyAdmission.MergeRefusal |
| AntiEntropyReplay.ChainIsOnePass | crates/aura-anti-entropy/src/anti_entropy.rs:268-304 | operations that apply in order are all accepted by one sweep with the same resulting map |
| AntiEntropyReplay.PassTrace | crates/aura-anti-entropy/src/anti_entropy.rs:279-300 | what a sweep accepts applies in order and gives the map it ends with; a refusal names an operation refused there |
| AntiEntropyReplay.PassConserves | crates/aura-anti-entropy/src/anti_entropy.rs:279-300 | accepted and left operations together are the operations given, with multiplicity |
| AntiEntropyReplay.IdlePass | crates/aura-anti-entropy/src/anti_entropy.rs:291-298 | a sweep that accepts nothing left every operation without a known parent |
| AntiEntropyReplay.WorklistTrace | crates/aura-anti-entropy/src/anti_entropy.rs:364-391 | the worklist loses nothing, what it accepted applies in order, and each verdict means what it says about what is left |
| AntiEntropyReplay.ScreenPasses | crates/aura-anti-entropy/src/anti_entropy.rs:346-362 | the batch screen passes exactly the batches whose fingerprints exist, differ pairwise and are new |
| AntiEntropyReplay.MergeKeepsReplay | crates/aura-anti-entropy/src/anti_entropy.rs:330-394 | any merge, failed or not, keeps the oplog replayable to exactly the map it held when it stopped; the oplog only grows, by part of the batch and by all of it on success |
| AntiEntropyReplay.RunKeepsReplay | crates/aura-anti-entropy/src/anti_entropy.rs:330-394 | every run of merges keeps replayability and never drops a logged operation |
| AntiEntropyReplay.ReplayAfterAnyRun | crates/aura-anti-entropy/src/anti_entropy.rs:268-394 | from an empty log, after any merges: rebuilding never fails, rebuilds the last merge's map in a single sweep, and fingerprints stay pairwise distinct |
| AntiEntropyConfluence.ParentChecksRedundant | crates/aura-anti-entropy/src/anti_entropy.rs:228-245 | against soundly known states the epoch and commitment checks never refuse |
| AntiEntropyConfluence.WorklistConfluent | crates/aura-anti-entropy/src/anti_entropy.rs:364-391 | over permuted batches success, orphaning and rejection coincide, and without a rejection the known map and the accepted operations are equal |
| AntiEntropyConfluence.DoneIffDerivable | crates/aura-anti-entropy/src/anti_entropy.rs:364-391 | the worklist finishes exactly when some order of the batch applies step by step |
| AntiEntropyConfluence.MergeSucceedsIff | crates/aura-anti-entropy/src/anti_entropy.rs:330-394 | a merge succeeds exactly when the batch is fresh and derivable from the rebuilt states |
| AntiEntropyConfluence.MergeConfluent | crates/aura-anti-entropy/src/anti_entropy.rs:330-394 | permuting a batch changes neither success nor, on success, the known states and the multiset of logged operations |
| AntiEntropyConfluence.LogsOrdered | crates/aura-anti-entropy/src/anti_entropy.rs:268-304 | a replayable log with more operations rebuilds every state of the smaller one, with the same value |
| AntiEntropyConfluence.ReplicasConverge | crates/aura-anti-entropy/src/anti_entropy.rs:268-394 | two replicas after any runs: logs with the same operations, in any order, rebuild the same known states |
| AntiEntropyAdmission.AdmitIff | crates/aura-anti-entropy/src/anti_entropy.rs:214-266 | an operation is admitted to a state exactly when it names that state as parent, is attested for the node its kind names there, and applies; the new state is the application's; each error has its own true reason |
| AntiEntropyAdmission.LoggedWasAttested | crates/aura-anti-entropy/src/anti_entropy.rs:214-394 | after any run of merges, failed ones included, every logged operation names a known parent, was attested there for the node its kind names, and applied; where keys determine states this also holds in the map rebuilt from the whole log |
| AntiEntropyAdmission.ForgedRefused | crates/aura-anti-entropy/src/anti_entropy.rs:247-258 | a fresh operation whose attestation fails is refused as such and the log stays as it was |
| AntiEntropyAdmission.ScreenRefusal | crates/aura-anti-entropy/src/anti_entropy.rs:346-362 | a screened batch is refused for its first offence: no fingerprint, a fingerprint earlier in the batch, or one in the log |
| AntiEntropyAdmission.MergeRefusal | crates/aura-anti-entropy/src/anti_entropy.rs:330-394 | every failed merge over a replayable log names a true defect of the batch: an offence, an operation whose parent is unknown at the end, or the grounds against one in the state it names |
| AntiEntropyAdmission.RebuildRefusal | crates/aura-anti-entropy/src/anti_entropy.rs:268-304 | a log that does not rebuild is refused for an operation without a known parent or for the grounds against one |
| AntiEntropyAdmission.BrokenLogRefused | crates/aura-anti-entropy/src/anti_entropy.rs:330-345 | over a log that does not rebuild or lacks a fingerprint nothing merges, the log stays, and the answer is that defect |
| AntiEntropyAtomicity.MergeLogsIff | crates/aura-anti-entropy/src/anti_entropy.rs:346-391 | a merge extends the log exactly when the batch is fresh and its first operation with a known parent is admitted |
| AntiEntropyAtomicity.MergeAtomicIff | crates/aura-anti-entropy/src/anti_entropy.rs:330-394 | exactly when a merge is all or nothing |
| AntiEntropyAtomicity.ResendRefused | crates/aura-anti-entropy/src/anti_entropy.rs:346-362 | once anything of a batch is logged, resending the batch is refused as a replay and changes nothing |
| AntiEntropyAtomicity.PartialMerge | crates/aura-anti-entropy/src/anti_entropy.rs:364-391 | a concrete batch that fails and leaves its first operation in the log |
| Coherence.CoherentMeansNoViolation | crates/aura-agent/src/reconfiguration.rs:645-712 | the declarative coherence condition is the absence of every reportable violation |
| Coherence.ClassesExclude | crates/aura-core/src/reconfiguration.rs:42-66 | adding a session puts it into the named class and no other, removing it takes it out of all; no other session and no schema changes |
| Coherence.CollectOwners | crates/aura-agent/src/reconfiguration.rs:645-672 | the three maps hold each session's owner occurrences, delegators and receivers, whatever the iteration order |
| Coherence.VerifyCoherenceMap | crates/aura-agent/src/reconfiguration.rs:645-712 | reports exactly the violations there are, each once, in any iteration order, and none exactly on coherent footprints |
| Delegation.ReconfigurationController.constructor | crates/aura-agent/src/reconfiguration.rs:79-82 | starts with no bundle, no footprint and an empty log |
| Delegation.ReconfigurationController.RegisterBundle | crates/aura-agent/src/reconfiguration.rs:84-99 | adds a bundle id and says whether it was new |
| Delegation.ReconfigurationController.FootprintExtend | crates/aura-agent/src/reconfiguration.rs:120-132 | moves the session into one class of the authority's footprint, which starts unstamped |
| Delegation.ReconfigurationController.Delegate | crates/aura-agent/src/reconfiguration.rs:217-306 | the receipt or error and the new footprints and log are those specified; an error changes nothing. What the receipts say is in Delegation.ReceiptsOverRuns, which error in Delegation.DelegateRefusals |
| Delegation.ClearDelegators | crates/aura-agent/src/reconfiguration.rs:250-262 | earlier delegators of the session are cleared, in any iteration order |
| Delegation.MovedElsewhere | crates/aura-agent/src/reconfiguration.rs:250-272 | no other session changes its owners, receivers or delegators |
| Delegation.MovedCoherentIff | crates/aura-agent/src/reconfiguration.rs:250-280 | from a coherent map the moved map is coherent exactly when one of the two ends owned the session |
| Delegation.DelegateSucceedsIff | crates/aura-agent/src/reconfiguration.rs:217-306 | from a coherent map, exactly which requests succeed |
| Delegation.OwnerCanDelegate | crates/aura-agent/src/reconfiguration.rs:225-280 | an active owner, native or re-delegating, is never refused for coherence |
| Delegation.DelegateStep | crates/aura-agent/src/reconfiguration.rs:217-306 | every request keeps coherence and leaves all other sessions, and on error all sessions, as they were |
| Delegation.CustodyOverRuns | crates/aura-agent/src/reconfiguration.rs:217-306 | over every run of requests: coherence holds, each session's owner is the receiver of its latest receipt, the set of owned sessions is conserved, and receipts chain from holder to holder |
| Delegation.RolesOverRuns | crates/aura-agent/src/reconfiguration.rs:217-306 | over every run of requests from a coherent map, all parts in a session are told by its latest receipt: one receiver, and the giver unless the same; without a receipt they are as at the start |
| Delegation.FormerDelegatorAccepted | crates/aura-agent/src/reconfiguration.rs:225-280 | a concrete former delegator whose request is accepted |
| Delegation.StampsOverRuns | crates/aura-agent/src/reconfiguration.rs:233-306 | over every run of requests the authorities are the initial ones and the receivers in the log, and a footprint carries the schema exactly when it did at the start |
| Delegation.DelegateRefusals | crates/aura-agent/src/reconfiguration.rs:225-280 | from a coherent map, exactly which error each refused request meets: unknown bundle, no part in the session, or neither end owns it |
| Delegation.ReceiptTells | crates/aura-agent/src/reconfiguration.rs:233-303 | a receipt carries both ends' footprints before and after its step; the session is then delegated in at the receiver and out at a different giver, and no other session changed |
| Delegation.ReceiptsOverRuns | crates/aura-agent/src/reconfiguration.rs:217-306 | over every run each receipt in the log belongs to one request and tells the footprints just before and just after it |
| Ordering.LessTrichotomy | crates/aura-agent/src/reconfiguration.rs:504-516 | byte strings are linearly ordered |
| Ordering.LessIff | crates/aura-agent/src/reconfiguration.rs:504-516 | one byte string precedes another exactly when it is a proper prefix or has the lower byte where they first differ |
| Ordering.CanonicalSorted | crates/aura-agent/src/reconfiguration.rs:504-516 | canonicalising sorts strictly and keeps exactly the keys |
| Ordering.SortedUnique | crates/aura-agent/src/reconfiguration.rs:504-516 | a set has only one strictly sorted listing |
| Ordering.StableSortKeeps | crates/aura-authentication/src/dkd.rs:985-986 | the stable sort loses and repeats nothing |
| Ordering.StableSortIsCanonical | crates/aura-authentication/src/dkd.rs:985-986 | on distinct keys it gives the one sorted listing |
| RuntimeUpgrade.CanonicalMembersExact | crates/aura-agent/src/reconfiguration.rs:504-516 | the member list is strictly sorted, keeps exactly the members, and depends on nothing but the set |
| RuntimeUpgrade.CheckSteps | crates/aura-agent/src/reconfiguration.rs:518-621 | the plan loop reports the first step without members, and nothing exactly when all have some |
| RuntimeUpgrade.ValidateRequest | crates/aura-agent/src/reconfiguration.rs:518-621 | the checks in order give the specified reason, which RuntimeUpgrade.ValidateIff describes without them |
| RuntimeUpgrade.ValidateIff | crates/aura-agent/src/reconfiguration.rs:518-621 | a request passes exactly when there are steps, none of them empty, no publication or obligation is both carried and invalidated, and each compatibility demand made of it is met; otherwise the reason is the first that holds |
| RuntimeUpgrade.RuntimeUpgradeController.RegisterBundle | crates/aura-agent/src/reconfiguration.rs:84-99 | reply and new snapshots are those of the specified event |
| RuntimeUpgrade.RuntimeUpgradeController.SeedMembership | crates/aura-agent/src/reconfiguration.rs:325-349 | reply and new snapshots are those of the specified event |
| RuntimeUpgrade.RuntimeUpgradeController.ExecuteUpgrade | crates/aura-agent/src/reconfiguration.rs:368-446 | reply and new snapshots are those of the specified event |
| RuntimeUpgrade.ProperKept | crates/aura-agent/src/reconfiguration.rs:518-621 | an attempt, accepted or refused, keeps the membership non-empty, sorted and repeat-free |
| RuntimeUpgrade.SeedProper | crates/aura-agent/src/reconfiguration.rs:325-349 | after any events the last seed is missing or proper, and nothing is recorded without one |
| RuntimeUpgrade.SnapshotClosedForm | crates/aura-agent/src/reconfiguration.rs:325-446 | after any events a bundle's epoch, membership and upgrade list are the closed form of its last seed and the requests since |
| RuntimeUpgrade.HistoryChains | crates/aura-agent/src/reconfiguration.rs:368-446 | each recorded attempt starts from the previous one's final members; failures are recorded and change nothing; a success ends in its last step's members; the last attempt ends in the active membership |
| RuntimeUpgrade.SnapshotsChain | crates/aura-agent/src/reconfiguration.rs:325-446 | after any events, for every registered bundle: epoch is the number of attempts, seeded membership is proper, each attempt answers its request from where the one before ended, and the last ended in the current membership |
| RuntimeUpgrade.AnswersExact | crates/aura-agent/src/reconfiguration.rs:84-446 | after any events, what a registration, a seed and an upgrade request answer: an upgrade is executed exactly when the bundle is seeded and the request acceptable, and then staged, admitted and committed with its last step's members; otherwise the refusal is the first true objection |
| TaskAccounting.ListedExact | crates/aura-agent/src/task_registry.rs:511-553 | a report lists exactly the registered ids, once each, in order |
| TaskAccounting.TaskGroup.AllocateId | crates/aura-agent/src/task_registry.rs:633-645 | hands out the next id and advances the counter |
| TaskAccounting.TaskGroup.RegisterTask | crates/aura-agent/src/task_registry.rs:596-606 | adds the entry without a handle |
| TaskAccounting.TaskGroup.AttachNativeHandle | crates/aura-agent/src/task_registry.rs:608-612 | attaches to an entry that is still there and does nothing otherwise |
| TaskAccounting.TaskGroup.CompleteTask | crates/aura-agent/src/task_registry.rs:614-631 | removes the entry and says whether it was there |
| TaskAccounting.TaskGroup.ForceAbortRemaining | crates/aura-agent/src/task_registry.rs:511-553 | empties the table, reports exactly its ids and signals exactly those with a handle |
| TaskAccounting.InvariantStep | crates/aura-agent/src/task_registry.rs:511-713 | every step of every interleaving keeps the accounting invariant |
| TaskAccounting.AccountedOnce | crates/aura-agent/src/task_registry.rs:511-713 | on every run each spawned id is active, or removed by its completion, or in exactly one abort report, and never in two of these |
| TaskAccounting.NoStaleEntries | crates/aura-agent/src/task_registry.rs:614-713 | no finished task stays registered; once all have finished the table is empty |
| TaskAccounting.GoneForGood | crates/aura-agent/src/task_registry.rs:596-631 | no later step, a late attach or completion included, brings an id back or recounts it |
| TaskAccounting.AbortReachesAttachedOnly | crates/aura-agent/src/task_registry.rs:511-553 | an aborted id is reported once for good, and is ever signalled exactly when its handle was attached at the abort |
| TaskAccounting.AbortReachesNobody | crates/aura-agent/src/task_registry.rs:511-553 | a concrete run in which a task reported as aborted runs on and is never signalled |
| TaskAccounting.ReportsNameTasks | crates/aura-agent/src/task_registry.rs:511-606 | on every interleaving an id is registered at most once, and every report lists ids in ascending order with the names they were registered under |
| CancellationTree.PinnedIff | crates/aura-agent/src/task_registry.rs:310-325 | a group's token on its parent is alive exactly when the group or a descendant, however far, is owned by a handle, a wrapper or a token |
| CancellationTree.ListenedIff | crates/aura-agent/src/task_registry.rs:580-585 | a group has a receiver exactly when it has a wrapper or a token or an owned proper descendant, whatever became of the groups between |
| CancellationTree.CancelledByAncestor | crates/aura-agent/src/task_registry.rs:816-824 | a token reads as cancelled exactly when its group or an ancestor is flagged |
| CancellationTree.WokenByAncestor | crates/aura-agent/src/task_registry.rs:797-931 | a wait on a token and in a wrapper ends exactly when the group or an ancestor is flagged or has lost its sender |
| CancellationTree.CancelReaches | crates/aura-agent/src/task_registry.rs:463-472 | a request cancels exactly its subtree when someone listens, always reaches owned proper descendants, also below groups already dropped, and leaves no trace when nobody listens |
| CancellationTree.RequestReachesTask | crates/aura-agent/src/task_registry.rs:639-642 | a request reaches a registered task always from a proper ancestor, and on its own group exactly when the task has subscribed or somebody else listens |
| CancellationTree.NodeHistory | crates/aura-agent/src/task_registry.rs:463-472 | on every run a flag is set exactly when a request on the group was heard, and a sender is gone exactly when its last owner left |
| CancellationTree.CancellationHistory | crates/aura-agent/src/task_registry.rs:463-824 | on every run a group reads as cancelled exactly when a request on it or an ancestor was heard, groups created later included |
| CancellationTree.WakeHistory | crates/aura-agent/src/task_registry.rs:657-931 | on every run a task is woken exactly when a request on its group or an ancestor was heard or an ancestor has lost its sender |
| CancellationTree.DroppedParentWakes | crates/aura-agent/src/task_registry.rs:915-924 | a concrete run in which a task is woken because its parent group was dropped, with nothing cancelled |
| CancellationTree.RequestMissesTask | crates/aura-agent/src/task_registry.rs:639-642 | a concrete run in which a request between registration and subscription leaves a running task neither woken nor cancelled |
| CancellationTreeHistory.MembersHistory | crates/aura-agent/src/task_registry.rs:596-713 | on every run a task is spawning from its registration to its subscription, running from there to its exit, and a token is held from its creation until it is dropped |
| CancellationTreeHistory.GroupHistory | crates/aura-agent/src/task_registry.rs:310-325 | on every run a handle lasts until it is dropped, and a group's parent is the one it was created under, the root alone having none |
| Dkd.ReceiveAll | crates/aura-authentication/src/dkd.rs:763-821 | the receive loop computes the specified reception: order, duplicates, validity, membership and prior commitments; DkdAdmission.ReceiveIff says exactly when it succeeds |
| Dkd.EnsureUniqueContributors | crates/aura-authentication/src/dkd.rs:1217-1234 | the loop reports the specified first failure |
| Dkd.RunExchanges | crates/aura-authentication/src/dkd.rs:750-951 | both exchanges together compute the specified outcome, errors and the wrapped count of an empty list included |
| Dkd.ReceiveExact | crates/aura-authentication/src/dkd.rs:763-821 | a successful reception has the asked number of valid contributions, from unseen devices and matching prior commitments |
| Dkd.UniqueExact | crates/aura-authentication/src/dkd.rs:1217-1234 | passing means all valid and pairwise different devices |
| Dkd.FullParticipation | crates/aura-authentication/src/dkd.rs:750-974 | success means the participant list had no repeats and commitments and reveals each come once from exactly the participants |
| Dkd.RevealsOpenCommitments | crates/aura-authentication/src/dkd.rs:825-951 | each reveal hashes to the commitment of the same device, and equals the committed randomness under a collision-free hash |
| DkdAdmission.AcceptIff | crates/aura-authentication/src/dkd.rs:410-502 | a message is accepted exactly when its device is new, it was sent by that device, the enrolled key verifies its signature over the session and the signed fields, its fields fit session, enrolment and phase, and it opens any prior commitment; the contribution is the one it carries |
| DkdAdmission.AcceptRefusal | crates/aura-authentication/src/dkd.rs:410-502 | a refused message has the fault reported, and none reported earlier |
| DkdAdmission.ReceiveIff | crates/aura-authentication/src/dkd.rs:763-821 | the receive loop succeeds exactly when the first messages asked for are all acceptable and from different devices, and returns what they carry in order |
| DkdAdmission.OwnIff | crates/aura-authentication/src/dkd.rs:675-747 | the device's own commitment is its enrolled key id, its own randomness and that randomness's hash, signed with its own key |
| DkdAdmission.GatherIff | crates/aura-authentication/src/dkd.rs:675-974 | both exchanges succeed with an outcome exactly when that is the device's own contribution and one acceptable message from each other slot in each phase, the openings differ, fit and reach the threshold |
| DkdAdmission.AuthenticParticipation | crates/aura-authentication/src/dkd.rs:675-974 | after success each participant is heard once, and every opening fits the session and is the device's own or came in a message its device sent and signed |
| DkdRefusal.ValidateRefusal | crates/aura-authentication/src/dkd.rs:1147-1214 | a contribution that does not fit is refused for the first field that does not |
| DkdRefusal.ReceiveStalls | crates/aura-authentication/src/dkd.rs:763-821 | a reception that fails does so at the first message that is missing or at fault, and returns that fault |
| DkdRefusal.GatherRefusal | crates/aura-authentication/src/dkd.rs:675-974 | for every inbox the error the exchanges end with is true: the device cannot sign, a message is missing or at fault, an opening repeats a device or does not fit, or there are fewer openings than the threshold |
| DkdDerivation.CombineContributions | crates/aura-authentication/src/dkd.rs:976-991 | the loop builds the specified KDF input over the stably sorted contributions; where everything is in it say DkdDerivation.SessionLayout and DkdDerivation.RecordLayout |
| DkdDerivation.EncodeUnambiguous | crates/aura-authentication/src/dkd.rs:976-991 | records are 48 bytes each, so equal encodings mean equal device and randomness sequences |
| DkdDerivation.KdfInputIdentifiesContributors | crates/aura-authentication/src/dkd.rs:976-991 | KDF inputs agree exactly when the sets of device and randomness agree, whatever the arrival order |
| DkdDerivation.LittleEndianDecodes | crates/aura-authentication/src/dkd.rs:982 | eight bytes encode a number modulo 2^64, lowest byte first |
| DkdDerivation.SessionLayout | crates/aura-authentication/src/dkd.rs:976-982 | the input starts with the application id, then the purpose, then eight bytes that decode to the epoch modulo 2^64 |
| DkdDerivation.RecordLayout | crates/aura-authentication/src/dkd.rs:984-991 | after that 48 bytes for each contribution in order of device, its randomness and then its device id |
| DkdDerivation.KdfInputIdentifiesSession | crates/aura-authentication/src/dkd.rs:976-991 | inputs of sessions whose ids take up as much room agree exactly when application and purpose, the epoch modulo 2^64 and the sets of device and randomness agree; with application ids of one length both ids agree separately |
| DkdDerivation.BoundaryUnmarked | crates/aura-authentication/src/dkd.rs:980-981 | two contexts that differ in where the application id ends have the same input |
| DkdDerivation.SameCommitmentsSameInput | crates/aura-authentication/src/dkd.rs:750-991 | two devices completing one session under a collision-free hash derive from equal inputs exactly when they saw the same commitments |
| DkdDerivation.DkdProtocol.constructor | crates/aura-authentication/src/dkd.rs:325-332 | starts with the given configuration, no session, no signer and the initial agreement mode |
| DkdDerivation.DkdProtocol.RegisterVerificationKey | crates/aura-authentication/src/dkd.rs:351-365 | the device is trusted with the given key and no signing key; an earlier entry is replaced |
| DkdDerivation.DkdProtocol.RegisterSigningKey | crates/aura-authentication/src/dkd.rs:369-384 | the device is trusted with the given key pair; an earlier entry is replaced |
| DkdDerivation.DkdProtocol.InitiateSession | crates/aura-authentication/src/dkd.rs:505-579 | the threshold and capacity refusals, the stored session and agreement mode, and that a failed journal write still leaves them |
| DkdDerivation.Committed | crates/aura-authentication/src/dkd.rs:1237-1243 | the loop lists the commitments in arrival order, for the proof and for the combined commitment |
| DkdDerivation.DeriveResult | crates/aura-authentication/src/dkd.rs:954-1073 | a result only when the derivation over the canonical input and its proof both succeed |
| DkdDerivation.Execute | crates/aura-authentication/src/dkd.rs:582-640 | the steps up to the result compute the specified one, each error included |
| DkdDerivation.ResultNeedsEveryone | crates/aura-authentication/src/dkd.rs:582-1013 | a result comes from an open session, whose participants have no repeats, and from one opening by each of them, its own or in a message its device sent and signed; it counts them and carries no reversion risk exactly when finalization is not allowed and the mode is final |
| DkdDerivation.DkdProtocol.ExecuteProtocol | crates/aura-authentication/src/dkd.rs:582-672 | the result and error, and that the session closes exactly when a key was derived, even if the journal write then fails |
| DkdAgreement.ExecutionIff | crates/aura-authentication/src/dkd.rs:582-640 | an execution returns a result exactly when the device has a signing key, the session is open, the exchanges went as they should, and the result's fields are the derived key over the canonical input, the proof and combined commitment over the commitments, and session, epoch, count, mode and risk as stated |
| DkdAgreement.ExecutionRefusals | crates/aura-authentication/src/dkd.rs:582-640 | a device without an enrolled key, without a signing key, or without the session: which error each gets |
| DkdAgreement.DerivationFails | crates/aura-authentication/src/dkd.rs:993-1060 | a cryptographic failure is returned exactly when the exchanges succeed and the derivation or the proof does not |
| DkdAgreement.ResultsAgree | crates/aura-authentication/src/dkd.rs:582-1243 | two successful devices in one session agree on session, epoch and count; on the key exactly when they heard the same commitments; on the combined commitment exactly when they also opened in one order; on the proof exactly when on both; never on the last two when their own randomness differs |
| DkdAgreement.HonestExchange | crates/aura-authentication/src/dkd.rs:675-974 | in an honest session of any size the exchanges succeed at every device, in whatever order the others' messages of a phase arrive, with exactly what everybody contributed |
| DkdAgreement.HonestAgreement | crates/aura-authentication/src/dkd.rs:582-1013 | any two devices of an honest session both get a result, with the same key |
| DkdAgreement.HonestProofsDiffer | crates/aura-authentication/src/dkd.rs:1025-1243 | and, if their randomness differs and nothing collides, with different proofs and combined commitments |
| DkdAgreement.SameKeyOtherProof | crates/aura-authentication/src/dkd.rs:1025-1243 | a concrete pair of devices with one key, two proofs and two combined commitments |
| OpCache.BroadcasterState.InsertBounded | crates/aura-anti-entropy/src/broadcast.rs:75-82 | add overwrites the stored operation, then trims |
| OpCache.BroadcasterState.MergeBounded | crates/aura-anti-entropy/src/broadcast.rs:84-91 | merge keeps an operation that is stored already |
| OpCache.BroadcasterState.Trim | crates/aura-anti-entropy/src/broadcast.rs:93-99 | the trimming loop computes the specified cache |
| OpCache.BroadcasterState.MergeRemoteOps | crates/aura-anti-entropy/src/broadcast.rs:277-289 | a batch is its operations merged in turn |
| OpCache.TrimmedExact | crates/aura-anti-entropy/src/broadcast.rs:93-99 | trimming keeps exactly the newest entries, with their operations |
| OpCache.CacheIsLastAdmitted | crates/aura-anti-entropy/src/broadcast.rs:75-99 | after any adds and merges the keys are the repeat-free order, which is the last admissions within capacity |
| OpCache.PresentIff | crates/aura-anti-entropy/src/broadcast.rs:75-99 | a CID is present exactly when fewer than capacity CIDs were admitted after one of its admissions |
| OpCache.AppliedContents | crates/aura-anti-entropy/src/broadcast.rs:75-91 | one operation changes what is stored under its own CID only, by addition or admission |
| OpCache.CacheContents | crates/aura-anti-entropy/src/broadcast.rs:75-91 | the stored operation is the one that was admitted, or the latest one added since |
| Backpressure.EligiblePeers | crates/aura-anti-entropy/src/broadcast.rs:105-115 | the loop computes the specified selection and counters |
| Backpressure.EligibleExact | crates/aura-anti-entropy/src/broadcast.rs:105-115 | each peer is taken as often as asked and allowed, and its counter moves by exactly that |
| Backpressure.BoundedStep | crates/aura-anti-entropy/src/broadcast.rs:146-178 | every critical section keeps queued plus in-flight announcements within the bound |
| Backpressure.PendingBound | crates/aura-anti-entropy/src/broadcast.rs:101-178 | with cap M and at most N pushes at once, pending announcements never exceed M - 1 + N, and stay none when M is 0 |
| Backpressure.PendingBoundTight | crates/aura-anti-entropy/src/broadcast.rs:146-178 | for all M and N of at least 1 some run reaches M - 1 + N |
| Backpressure.SelectionsLimited | crates/aura-anti-entropy/src/broadcast.rs:211-355 | between two resets no peer is selected more often than the limit, over all concurrent pushes |
| BackpressureHistory.PendingHistory | crates/aura-anti-entropy/src/broadcast.rs:146-355 | on every run an announcement is pending exactly when a push that found nobody queued it and no sent or direct push has cleared it since |
| BackpressureHistory.PeersKnown | crates/aura-anti-entropy/src/broadcast.rs:205-209 | on every run the peers are the ones added, each once |
| BackpressureHistory.RatesCount | crates/aura-anti-entropy/src/broadcast.rs:105-115 | on every run a peer's counter is the number of times it was taken since the last reset, and within the limit |
| BackpressureHistory.PushHistory | crates/aura-anti-entropy/src/broadcast.rs:146-178 | on every run a push past the check was checked below the cap, listed the peers known then, and selected once each of those then below the limit |
| BackpressureHistory.PushOutcome | crates/aura-anti-entropy/src/broadcast.rs:146-178 | a push that ends queues its announcement exactly when every peer it listed was at its limit as it selected; otherwise it clears it if it was sent, and no other announcement changes |
| AuthView.AuthViewReducer.constructor | crates/aura-authentication/src/view.rs:137-139 | an empty view |
| AuthView.AuthViewReducer.AddGuardianApproval | crates/aura-authentication/src/view.rs:261-273 | counts a guardian once in an open request and always lists the approval |
| AuthView.AuthViewReducer.RecordRecoveryFailure | crates/aura-authentication/src/view.rs:275-286 | records the account of an open request and closes it |
| AuthView.AuthViewReducer.RecordAuthFailure | crates/aura-authentication/src/view.rs:288-305 | appends and drops the oldest beyond 100 |
| AuthView.AuthViewReducer.Apply | crates/aura-authentication/src/view.rs:328-437 | the whole view after one fact, delta by delta |
| AuthView.AuthViewReducer.ReduceAll | crates/aura-authentication/src/view.rs:440-446 | the loop folds the facts in order |
| AuthView.RecoveryFollowsFacts | crates/aura-authentication/src/view.rs:235-437 | a recovery entry exists exactly while its last lifecycle fact is a request, and holds that request's fields and the distinct guardians who approved since |
| AuthView.ApprovalClosedForm | crates/aura-authentication/src/view.rs:158-162 | a recovery is approved exactly when its last lifecycle fact is a request and enough distinct guardians approved after it, with the 32-bit count written out |
| AuthView.SessionsClosedForm | crates/aura-authentication/src/view.rs:198-233 | a session is the last one issued and not revoked since; a challenge is the last one with no session issued since |
| AuthView.ApprovalsClosedForm | crates/aura-authentication/src/view.rs:261-273 | the approval list holds every approval ever made, in order and with repeats |
| AuthView.SessionLocality | crates/aura-authentication/src/view.rs:334-437 | session and challenge entries at an id depend only on the facts carrying that id |
| AuthView.RequestLocality | crates/aura-authentication/src/view.rs:334-437 | recovery and approval entries at an id depend only on the facts carrying that id |
| AuthView.ReorderingHarmless | crates/aura-authentication/src/view.rs:440-446 | logs that agree id by id give equal maps, all four of them |
| AuthView.FailuresAreLatest | crates/aura-authentication/src/view.rs:288-305 | recent failures are exactly the last 100 authentication failures, in order |
| AuthView.RecoveryFailuresExact | crates/aura-authentication/src/view.rs:275-286 | one record per denial or failure, with the account of the request that was open then |
| Proposals.ProposalState.constructor | crates/aura-authorization/src/proposals.rs:393-425 | a pending proposal without votes, with the created fact's fields |
| Proposals.ProposalState.FromCreated | crates/aura-authorization/src/proposals.rs:393-425 | a state exists exactly for a created fact, and carries its id, proposer, expiry and requirement |
| Proposals.ProposalState.UpdateStatus | crates/aura-authorization/src/proposals.rs:469-493 | a pending status is recounted without a total; any other is kept |
| Proposals.ProposalState.UpdateStatusWithTotal | crates/aura-authorization/src/proposals.rs:526-546 | a pending status is recounted with the electorate; any other is kept |
| Proposals.ProposalState.Apply | crates/aura-authorization/src/proposals.rs:428-466 | the whole state after one fact |
| Proposals.VotersTracked | crates/aura-authorization/src/proposals.rs:428-449 | the vote maps' keys are exactly the distinct voters of either side |
| Proposals.LastVotesKept | crates/aura-authorization/src/proposals.rs:428-449 | each voter's last vote on either side is on record, closed proposals included |
| Proposals.StatusClosedForm | crates/aura-authorization/src/proposals.rs:428-513 | the status is the last closing fact's, else approved exactly when someone voted and enough distinct voters approved, else pending with the narrowed counts; the 32-bit narrowing never changes the decision |
| Proposals.VotesCountAsSets | crates/aura-authorization/src/proposals.rs:428-513 | the same voters and verdict give the same status and voter sets |
| Proposals.VoteOrderIrrelevant | crates/aura-authorization/src/proposals.rs:428-513 | reordering or repeating facts leaves the status unchanged as long as the verdict is the same |
| Proposals.TotalAgreesIff | crates/aura-authorization/src/proposals.rs:501-519 | exactly when the check with a total agrees with a total-less approval |
| Proposals.TotalNeverContradicts | crates/aura-authorization/src/proposals.rs:501-519 | a non-empty electorate below 2^32 never contradicts an approval by its members |
| Proposals.RecountExact | crates/aura-authorization/src/proposals.rs:526-546 | what a recount of an unclosed proposal decides, for counts and totals of any size, whoever voted |
| Proposals.RecountKeeps | crates/aura-authorization/src/proposals.rs:526-546 | a recount changes no vote and no closed status, and an open one only to approved or to the narrowed counts of approvers and rejectors |
| Proposals.RecountDecides | crates/aura-authorization/src/proposals.rs:526-546 | with counts that fit, an unclosed proposal is approved exactly when its approvers, members or not, reach the number the threshold asks for, for every kind of threshold |
| Proposals.PercentageDecision | crates/aura-authorization/src/proposals.rs:526-546 | reduction leaves a percentage proposal pending; the recount approves exactly when the approvers reach the product as computed, which is the fraction of the electorate while it fits |
| Proposals.UnanimousDecision | crates/aura-authorization/src/proposals.rs:526-546 | the recount approves exactly when outsiders who approved are at least as many as members who did not; when only members vote, exactly when every member approved |
| Proposals.OutsidersPass | crates/aura-authorization/src/proposals.rs:513-519 | two outsiders pass a unanimous proposal of an electorate of two |
| Proposals.DecisionsShareVoterIff | crates/aura-authorization/src/proposals.rs:526-546 | any two proposals that members alone approve share an approver exactly when twice the number asked for exceeds the electorate |
| Proposals.OutsidersShareNobody | crates/aura-authorization/src/proposals.rs:526-546 | once outsiders vote, two proposals can pass without a common approver, whatever the threshold and the total |
| Quorum.AsU32IsModulo | crates/aura-authorization/src/proposals.rs:513-519 | narrowing a count to 32 bits is taking it modulo 2^32 |
| Quorum.AsU16IsModulo | crates/aura-authorization/src/proposals.rs:487-491 | narrowing a count to 16 bits is taking it modulo 2^16 |
| Quorum.PercentageMeans | crates/aura-authorization/src/effect_policy.rs:393-406 | while the product fits, met means 100 times the approvals reach percent times the total |
| Quorum.PercentageExact | crates/aura-authorization/src/effect_policy.rs:393-406 | that meaning holds for every count exactly when the product fits in 32 bits |
| Quorum.PercentageWraps | crates/aura-authorization/src/effect_policy.rs:393-406 | one approval in 42,949,673 meets 100% though not unanimity |
| Quorum.FullPercentageIsUnanimous | crates/aura-authorization/src/effect_policy.rs:393-406 | 100% is unanimity exactly when 100 times the total fits |
| Quorum.IntersectIff | crates/aura-amp/src/consensus.rs:21-29 | quorums of a given size always meet exactly when two of them outnumber the whole |
| Quorum.DecisionsIntersectIff | crates/aura-authorization/src/effect_policy.rs:393-406 | two groups meeting a threshold always share a member exactly when twice the number asked for exceeds the electorate, wrapped products included |
| Quorum.FittingPercentageIntersectsIff | crates/aura-authorization/src/effect_policy.rs:393-406 | while the product fits, exactly when it exceeds the lower half of the electorate |
| Quorum.MajorityPercentageIntersects | crates/aura-authorization/src/effect_policy.rs:393-406 | hence always at 51% or more while the product fits |
| Quorum.MajorityWraps | crates/aura-authorization/src/effect_policy.rs:393-406 | at 51% of 84,215,046 one voter passes, so two decisions need not share anybody |
| Quorum.HalfPercentageSplits | crates/aura-authorization/src/effect_policy.rs:393-406 | at 50% or less an even electorate can always decide twice without a common voter, an odd one exactly when the true product wraps or does not pass its lower half |
| Quorum.WitnessMajority | crates/aura-amp/src/consensus.rs:24-29 | two witness sets of the default size meet exactly when there are fewer than 65,536 witnesses; one fewer would not do; the size is reachable exactly when there are witnesses |
| Quorum.WitnessesWrap | crates/aura-amp/src/consensus.rs:24-29 | 65,536 witnesses need only one |
| PersistentSync.PersistentSyncHandler.constructor | crates/aura-anti-entropy/src/persistent.rs:48-54 | a handler over a store starts unloaded with an empty cache |
| PersistentSync.PersistentSyncHandler.LoadOps | crates/aura-anti-entropy/src/persistent.rs:80-111 | the operations of the index in order, or the first missing hash |
| PersistentSync.PersistentSyncHandler.EnsureInitialized | crates/aura-anti-entropy/src/persistent.rs:67-77 | loads once; a failed load changes nothing |
| PersistentSync.PersistentSyncHandler.PersistOp | crates/aura-anti-entropy/src/persistent.rs:114-150 | store, index and error for every outcome of the two writes |
| PersistentSync.PersistentSyncHandler.AlreadyCached | crates/aura-anti-entropy/src/persistent.rs:223-229 | finds a cached operation by hash |
| PersistentSync.PersistentSyncHandler.MergeRemoteOps | crates/aura-anti-entropy/src/persistent.rs:209-245 | the batch loop, stopping at the first error with what was done so far |
| PersistentSync.PersistentSyncHandler.InvalidateCache | crates/aura-anti-entropy/src/persistent.rs:156-158 | only the loaded flag changes |
| PersistentSync.StoreLoadsIff | crates/aura-anti-entropy/src/persistent.rs:67-245 | for a sole writer, after any history whatever: the store loads exactly when no complete write was made while the cache in use held a hash never stored; loading then gives the operation last stored under each hash of the last complete write, in order and without repeats; and the cache in use has the hashes the events say |
| PersistentSync.LoadAllExact | crates/aura-anti-entropy/src/persistent.rs:80-111 | loading gives the operation under each hash in order, exactly when all are stored; otherwise the first hash that is not |
| PersistentSync.MergeReturns | crates/aura-anti-entropy/src/persistent.rs:67-245 | after any history a merge fails to start exactly when the store must be read and does not load; otherwise it ends at the first attempt that does not serialize, or is new and not written in full, and says which |
| PersistentSync.CacheAgreesWithStore | crates/aura-anti-entropy/src/persistent.rs:67-245 | for every hasher, after merges written in full, invalidations, reads and stops anywhere in a batch, loading succeeds and returns exactly the cached sequence |
| PersistentSync.CacheAgreesIff | crates/aura-anti-entropy/src/persistent.rs:67-245 | after any history and for any hasher, loading returns the cache in use exactly when the store loads, the last complete write covered the whole cache, and no cached hash holds another operation |
| PersistentSync.CacheAgreesIffCollisionFree | crates/aura-anti-entropy/src/persistent.rs:67-245 | where hashes do not collide, the first two of these conditions are enough |
| PersistentSync.CollisionDiffers | crates/aura-anti-entropy/src/persistent.rs:114-245 | a concrete history with colliding hashes whose store loads something else than the cache holds |
| PersistentSync.CarefulHistoriesLoad | crates/aura-anti-entropy/src/persistent.rs:67-245 | the store always loads when every process that loses an operation write stops; failed index writes and stops anywhere do no harm |
| PersistentSync.CompleteBatchAdds | crates/aura-anti-entropy/src/persistent.rs:209-245 | a batch written in full puts every hash it offers, and nothing else, behind the log |
| PersistentSync.LostWriteDangles | crates/aura-anti-entropy/src/persistent.rs:114-245 | a lost operation write and then a complete one by the same process: the store no longer loads |
| PersistentSync.UnindexedWriteMends | crates/aura-anti-entropy/src/persistent.rs:114-245 | a failed index write is mended by the next complete write |
| PersistentSync.RestartForgets | crates/aura-anti-entropy/src/persistent.rs:67-245 | a lost operation write followed by a restart does no harm |
| PersistentSync.DanglingIsPermanent | crates/aura-anti-entropy/src/persistent.rs:67-245 | after any history, a store that does not load never loads again, whatever follows |

## Left out

- `AntiEntropyHandler::add_op` and `set_verification_anchor`, which verify nothing and so break the replay invariant by design.
- Digests, requests, pushes and guarded peer sessions of the anti-entropy handler: their CIDs are parent commitments, so no operation-level convergence follows from them.
- `link` of the reconfiguration controller, and runs that mix delegations with `footprint_extend`, which the coherence check does not guard.
- Bundle contents and compatibility: a registered bundle is its id, and the compatibility verdicts of an upgrade request are booleans.
- Update in place of the cancellation tree and of in-flight pushes: both are transition systems on values, because their property is about interleavings of many tasks.
- External tokens passed to a spawned task, which wake it by the rule of the group they belong to.
- Idle waits, shutdown timeouts, wasm task variants and diagnostics of the task supervisor.
- Sending and transport of key-derivation messages, and threshold-signed verification of a derivation.
- Signature, hash, KDF and serialization algorithms, which are parameters.
- Lazy pull, announcement and operation requests of the broadcaster.
- Expiry queries of the authentication view and of proposals, and the relational bindings of facts: single comparisons.
- Proposal fields that no rule reads (context, operation, data, description, creation time).
- Concurrent calls on one persistent sync handler, other writers of the same store, and storage reads that fail.
- Biscuit tokens, storage authorization, flow budgets, guard evaluation and the authentication service.
- AMP journal reduction, epoch transitions and consensus execution; only the default witness threshold is modelled.
- Choreographies, benchmarks, runtime builders, user interface contracts and capability tables.
- `thresholds.rs`: finite tables over single bytes.
- The structure of identifiers, scopes and operation types in authentication facts, of which only equality is used.
