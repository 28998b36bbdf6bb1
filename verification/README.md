# Verified model of the mininet-ai coordination runtime

This project models the parts of mininet-ai in which several agents act on one network
and one shared state at the same time, and proves what they guarantee over every run.
`dafny verify dfyconfig.toml` checks all of it.

## What is modelled

**Committing decisions.** Agents reason without locks against a snapshot of the shared
state. A decision then goes through arbitration, a reservation of its state keys and
network effects, a per-action admission check, execution, a recheck of what it read, and a
versioned publication. `SharedState` is the meaning of one update batch; `Stores` holds the
in-memory store and the SQLite store, both driven against that meaning. `Arbitration` and
`Admission` are the arbitrator and the reservation monitor; `Reservations` is the ticket
machine the monitor implements. `Dependencies` is the recheck. `Finishing` turns proposals
into results and decisions. `Commitment` puts the pieces together: every body that runs
under one condition or lock is one atomic step, a scheduler interleaves any number of
invocations of any number of requests, and the theorems hold of every schedule.

**Bounded recovery.** `Recovery` has the reconciliation of a fixed bundle and the revocable
decision authority. `Retries` has runs of recovery attempts, each under its own authority, in
which anything may fail, be cancelled, expire, or take effect after it was reported as failed.

**Delegation.** `Walks`, `Graph` and `EdgeGeneration` cover the coordination graph: Kahn's
algorithm, the other shape checks, and the edges the compiler generates. `Channel` is the
bounded message channel. `Routing` is one request's loop, `Measures` the order that shows it
ends, and `Coordination` any number of requests sharing one channel, which may also fail with
an exception. `HopLimits` says when the hop limit is met. `Leases` is the invocation budget.

**Triggers, allocation, telemetry.** `Triggers` is the queueing core of the continuous
runtime. `Sorting`, `Addresses` and `Dpids` are the compiler's allocators; `Ports`, `Adapters`,
`Links`, `LinkOrder` and `Topology` take it from a topology's resources and links to numbered
adapters and attached endpoints. `Telemetry` is flattening, aggregation and assignment of samples.

`Basics` holds shared datatypes and two counting lemmas. Code that changes state step by
step is a class or a method with loops, tied by its `ensures` to a function of its inputs or
of its old state; the properties are then lemmas about those functions. Every lemma turns
automatic induction off, so that each inductive proof is the one written in its body.

## Findings

Where a claim does not hold of the code as it is, the model keeps the code and the project
proves a failing input and the exact condition.

* Under the `reject` policy a recovery bundle whose steps conflict with each other can leave
  a gap: the arbitrator drops the losing step and a later one still runs
  (`Retries.RejectCanSkip`). The state then reads as unknown and every further recovery is
  refused (`Retries.GapsRefuseRecovery`). It cannot happen from an installed prefix exactly
  when the missing steps begin with compatible ones and every later step conflicts with one
  of these (`Retries.PrefixIffLosersTrail`).
* A coordination request that fails with an exception leaves behind what it had accepted and
  not submitted: the root of a request that is handed a lease of another agent
  (`Coordination.WrongLeaseStrandsRoot`), earlier delegations of a response when the message id
  factory returns an empty id (`Coordination.EmptyIdStrandsMessages`), and so for any other
  exception in the loop. Such messages occupy the shared channel for good, and once no request
  is active they are exactly what is left in it (`Coordination.LeftBehindExactly`).
* When a supervised agent is not running, the coordinated worker takes a bounded tick without
  marking its agent as active, so a second tick can be queued while the first is processed
  (`Triggers.FailingPathAllowsTwoTicks`). An agent has at most one tick throughout a run exactly
  when no section of the run enqueues a tick for it while it is not marked, its queue is empty,
  a tick of it is running unmarked and there is room (`Triggers.OneTickExactly`).
* A lease sets its flag before its release callback runs, so the active count equals the
  number of unreleased leases exactly when no close is halfway (`Leases.ActiveCountsOpen`).
* Flattening a sample loses empty objects and confuses dotted keys with nested ones
  (`Telemetry.EmptyObjectsVanish`, `Telemetry.DottedKeysCollide`). The newest sample comes back
  exactly when it is a non-empty object with no dot in any key, no empty key at the top and no
  empty sub-object (`Telemetry.AggregateSamples`, `Telemetry.ReproducedIff`).
* The hop limit is met by a reachable request exactly when the plan is distributed and has an
  edge: two peers that keep delegating to each other get there (`HopLimits.HopLimitReachable`).
* The order of a topology's links matters: an endpoint that names no adapter takes the node's
  first one, and a later endpoint that names it fails (`LinkOrder.OrderMatters`). Listing the
  endpoints that name an adapter first never hurts (`LinkOrder.NamedFirstNeverWorse`), and
  `Links.ResolveLinks` gives the exact condition for any order.

## Model

| member | source | states |
|---|---|---|
| SharedState.ApplyAdvances | mininet_ai/runtime/state.py:178-230 | through set, delete and re-create every batch keeps each key's version strictly increasing, so no version is used twice |
| SharedState.ApplyMeaning | mininet_ai/runtime/state.py:166-230 | a batch that succeeds makes exactly its assignments and removals visible, and one that fails changes nothing |
| SharedState.ApplyNeverStale | mininet_ai/runtime/state.py:95-118 | a batch whose expected versions are all current never fails for a version; only duplicates, missing entries and capacity remain |
| SharedState.SharedAccess | mininet_ai/agents/runtime.py:905-931 | each scope an agent can use gets the least capacity configured by any agent that reaches the same namespace |
| SharedState.LimitsAgree | mininet_ai/agents/runtime.py:905-931 | all agents that reach a namespace are given one and the same limit for it |
| SharedState.RunKeepsLimitsAndVersions | mininet_ai/runtime/state.py:199-210 | over any run by any mix of agents the live entries of a namespace never exceed its limit, and stored versions stay well formed |
| Stores.InMemoryStore.Apply | mininet_ai/runtime/state.py:166-230 | the staged copy returns the changes or the error that the meaning of the batch prescribes, and keeps the old entries on an error |
| Stores.StageUpdate | mininet_ai/runtime/state.py:178-230 | one update on the staged entries: its error code or its new entry, version and change |
| Stores.ValidateUpdates | mininet_ai/runtime/state.py:78-92 | reports the first update whose scope is not allowed or whose target came before |
| Stores.SqliteStore.Apply | mininet_ai/runtime/state.py:327-421 | the row-by-row transaction has the effect of the batch, and a failure rolls every row back |
| Stores.SqliteStore.ApplyRow | mininet_ai/runtime/state.py:338-410 | one row: lookup, version check, tombstone or upsert, and the count of live rows against the limit |
| Stores.SqliteStore.ReadSnapshot | mininet_ai/runtime/state.py:292-325 | reads exactly the live entries of the namespaces an access may use |
| Stores.DriveBoth | mininet_ai/runtime/state.py:166-421 | over any sequence of batches both stores return the same changes or errors and show every observer the same snapshots |
| Arbitration.EffectsOf | mininet_ai/coordination/arbitration.py:163-198 | a capability that only observes has no effects, a trusted provider keeps the effects it declares, and every other one gets the wildcard |
| Arbitration.EffectsDecideConflicts | mininet_ai/coordination/arbitration.py:163-209 | an observation conflicts with nothing, a capability without trusted effects with every candidate that has any, and declared effects where target and effect meet |
| Arbitration.ConflictsSymmetric | mininet_ai/coordination/arbitration.py:200-209 | conflicts do not depend on which action came first |
| Arbitration.Arbitrate | mininet_ai/coordination/arbitration.py:74-117 | one decision for each candidate: executed ones point at their own place in the order, rejected ones at an earlier winner they conflict with |
| Arbitration.RejectConflicts | mininet_ai/coordination/arbitration.py:119-161 | keeps exactly the candidates that avoid all earlier winners, with decisions and the rejected set to match |
| Arbitration.WinnersConflictFree | mininet_ai/coordination/arbitration.py:119-161 | the winners are pairwise without conflict and have distinct ids |
| Arbitration.LoserHasWinner | mininet_ai/coordination/arbitration.py:119-161 | a candidate wins if and only if no earlier winner conflicts with it |
| Arbitration.ByPrioritySorts | mininet_ai/coordination/arbitration.py:74-117 | the priority policy executes the same candidates, highest priority first and then in admission order |
| Arbitration.OnePriorityKeepsOrder | mininet_ai/coordination/arbitration.py:74-117 | proposals of one invocation keep their order under the priority policy |
| Reservations.NoDeadlock | mininet_ai/coordination/admission.py:93-139 | in every reachable state with waiters and nothing committing, the least waiter in policy order is ready |
| Reservations.NoLostWakeup | mininet_ai/coordination/admission.py:93-139 | in every reachable state a waiter that sleeps is not ready |
| Reservations.OnlyLeavingEnables | mininet_ai/coordination/admission.py:93-139 | a waiter that is not ready becomes ready only when some reservation leaves, and that step wakes everyone |
| Reservations.ClashesKeepArrivalOrder | mininet_ai/coordination/admission.py:112-139 | under `serialize` and `reject`, of two conflicting decisions the later arrival commits only after the earlier has been released |
| Reservations.GrantsRespectPolicy | mininet_ai/coordination/admission.py:125-139 | every grant goes to a reservation that no conflicting one holds up, and no conflicting waiter with precedence is passed over |
| Reservations.NoOvertaking | mininet_ai/coordination/admission.py:112-139 | under every policy, once two conflicting reservations both wait, the one behind still waits in every later state unless the one ahead has been released |
| Admission.RejectionsExact | mininet_ai/coordination/admission.py:37-69 | a candidate is reported as refused, with the action it lost to, exactly when an earlier action conflicts with it under `reject` |
| Admission.SurvivorsCompatible | mininet_ai/coordination/admission.py:72-110 | what a reservation keeps avoids everything admitted earlier and stays free of conflicts |
| Admission.ActionAdmission.FindRejections | mininet_ai/coordination/admission.py:37-69 | the first admitted action that each candidate loses to, over history, active actions and reserved candidates |
| Admission.ActionAdmission.DecisionReady | mininet_ai/coordination/admission.py:125-139 | the scan over the committing and waiting lists answers the readiness of the ticket machine |
| Admission.ActionAdmission.EnterDecision | mininet_ai/coordination/admission.py:72-110 | entering appends one reservation of the survivors' effects and the declared keys, none if every proposal was refused, and grants it at once if it is ready |
| Admission.ActionAdmission.WakeDecision | mininet_ai/coordination/admission.py:93-110 | a woken waiter moves to the committing list exactly when it is ready |
| Admission.ActionAdmission.LeaveDecision | mininet_ai/coordination/admission.py:93-110 | leaving removes one reservation from the committing list and notifies all waiters |
| Admission.ActionAdmission.EnterAdmit | mininet_ai/coordination/admission.py:142-188 | the inner check reports a winner, starts the action and extends the history, or leaves it pending |
| Admission.ActionAdmission.LeaveAdmit | mininet_ai/coordination/admission.py:142-168 | leaving removes the action from the active list and changes nothing else |
| Dependencies.CheckSharedState | mininet_ai/agents/runtime.py:486-520 | succeeds exactly when every declared or written key still has the version its snapshot showed, or the one the update names |
| Dependencies.CheckedNeverStale | mininet_ai/agents/runtime.py:486-520 | a response that passed the recheck against the store can no longer fail with a version error |
| Dependencies.BoundEffect | mininet_ai/agents/runtime.py:933-976 | binding updates to the snapshot's versions does not change what they assign or remove |
| Dependencies.VersionInSnapshot | mininet_ai/agents/runtime.py:522-525 | the version read from a snapshot is the store's, and zero for absence |
| Commitment.Serializable | mininet_ai/agents/runtime.py:588-600 | after any interleaving the visible state is what the committed batches produce one at a time in commit order, and at its turn each batch finds every key it declared as its snapshot showed it |
| Commitment.PublishNeverStale | mininet_ai/agents/runtime.py:588-617 | between the recheck and the separate publication no schedule can make an invocation stale |
| Commitment.ReservedKeysAreStable | mininet_ai/coordination/admission.py:87-123 | while a reservation is committing no other invocation changes a key it reads or writes |
| Commitment.ClearedNeverPublishes | mininet_ai/coordination/admission.py:87-104 | an invocation that gets to publish still reserves all its declared keys, so dropping those of a wholly refused one is safe |
| Commitment.InnerAdmissionRedundant | mininet_ai/coordination/admission.py:142-188 | in every reachable state nothing is pending, each surviving candidate is admitted at once, active actions are conflict-free, and so are histories under `reject` |
| Commitment.NeverStuck | mininet_ai/coordination/admission.py:93-139 | while any invocation holds a reservation some holder can move, and if nothing commits that step grants a waiter |
| Commitment.HistoryIdsDistinct | mininet_ai/coordination/routing.py:444-466 | no candidate enters a request's history twice, so commit orders are distinct |
| Finishing.CommitPrepared | mininet_ai/coordination/routing.py:578-701 | one result for each proposal in proposal order, executed decisions are exactly the candidates in the history, and a success was started and succeeded |
| Finishing.ValidateProposals | mininet_ai/coordination/routing.py:578-596 | splits the proposals into those validation refused, with their results, and those handed to the arbitrator |
| Finishing.RunOrdered | mininet_ai/coordination/routing.py:606-681 | carries out the ordered candidates and settles each one's result and decision |
| Finishing.BundleStops | mininet_ai/coordination/routing.py:606-681 | a bounded bundle starts a prefix of its order and nothing after the first step that is refused or does not succeed |
| Finishing.FinalReport | mininet_ai/coordination/routing.py:444-466 | exactly the executed decisions get a commit order, their own place in the history, and no two share one |
| Recovery.ReconcileExact | mininet_ai/agents/reconciliation.py:15-27 | a reading is accepted exactly when the installed steps are a prefix, and then the installed and missing steps are named |
| Recovery.DecisionAuthority.Revoke | mininet_ai/agents/bounded.py:489-496 | the first revocation wins |
| Recovery.DecisionAuthority.StartIfAuthorized | mininet_ai/agents/bounded.py:498-511 | a start is granted exactly when nothing was revoked and the deadline has not passed, and is recorded |
| Recovery.DriveAuthority | mininet_ai/agents/bounded.py:478-529 | over any events a start is granted only before the deadline, and none after a revocation, an expiry or a refusal |
| Recovery.RunBundle | mininet_ai/agents/bounded.py:498-511 | with revocations and clock readings landing anywhere, exactly as many steps begin as the authority grants |
| Recovery.GrantedExact | mininet_ai/agents/bounded.py:498-511 | the steps that begin are the first ones, each before the deadline and any revocation and each after a success, and the next one lacks one of these |
| Retries.ProposesMissingSuffix | mininet_ai/agents/bounded.py:887-902 | from an installed prefix the next attempt proposes exactly the missing rest, and a complete bundle nothing |
| Retries.WalkCarries | mininet_ai/coordination/routing.py:606-681 | the steps an attempt starts are those the halting walk appends to the request's history |
| Retries.RetriesAreSafe | mininet_ai/agents/bounded.py:795-902 | across any sequence of attempts the installed steps are a prefix, a readable state is never unknown, and only missing steps are proposed again |
| Retries.RetriesUnderAuthority | mininet_ai/agents/runtime.py:434-469 | after any attempts, a further one starts a prefix of the missing steps, begins those its authority grants, each in time and after a success, and installs exactly these but for a failed last one without effect |
| Retries.BegunIsGranted | mininet_ai/agents/runtime.py:434-469 | of the steps the halting walk starts, as many begin as the authority grants to a bundle of that length |
| Retries.PoliciesThatNeverSkip | mininet_ai/coordination/arbitration.py:74-161 | arbitration keeps a prefix of whatever is missing exactly when, under `reject`, the losers of each missing rest come last; without conflicts they always do |
| Retries.PrefixIffLosersTrail | mininet_ai/coordination/arbitration.py:119-161 | every attempt from a prefix leaves a prefix if and only if, under `reject`, the missing steps begin with compatible ones and every later step conflicts with one of these |
| Retries.RejectCanSkip | mininet_ai/coordination/arbitration.py:119-161 | a three-step bundle with one conflict ends with its first and third step installed although nothing failed |
| Retries.GapsRefuseRecovery | mininet_ai/agents/bounded.py:795-839 | once installed steps have a gap no attempt installs anything |
| Walks.AcyclicIffShortWalks | mininet_ai/coordination/graph.py:71-75 | a graph has no cycle if and only if every walk has fewer edges than there are agents |
| Graph.Build | mininet_ai/coordination/graph.py:34-65 | construction succeeds exactly on valid plans and then represents their edges, destinations and coordinator |
| Graph.ValidateHierarchy | mininet_ai/coordination/graph.py:170-184 | Kahn's algorithm accepts exactly the graphs without a cycle |
| Graph.ValidateCentralized | mininet_ai/coordination/graph.py:145-168 | finds a coordinator exactly when the edges are a star over all agents |
| Graph.ValidatePeers | mininet_ai/coordination/graph.py:186-189 | accepts exactly the symmetric graphs |
| Graph.AuthorizeExact | mininet_ai/coordination/graph.py:93-106 | delivery is authorized exactly along the plan's edges |
| Graph.WalksAreShort | mininet_ai/coordination/graph.py:71-75 | outside distributed mode authorized walks have fewer edges than there are agents |
| Graph.PeersWalkForever | mininet_ai/coordination/graph.py:71-75 | with one peer edge there are authorized walks of every length |
| EdgeGeneration.Compile | mininet_ai/compiler/compiler.py:867-944 | the generated edges are exactly those the specification asks for, and it fails exactly for unknown names or a coordinator that is not one instance |
| EdgeGeneration.CompileHierarchy | mininet_ai/compiler/compiler.py:894-907 | each declared relation is expanded to all pairs of instances, and an unknown deployment is an error |
| EdgeGeneration.CompilePeers | mininet_ai/compiler/compiler.py:909-936 | joins exactly the pairs that are peers, in both directions |
| EdgeGeneration.ExpansionKeepsCycles | mininet_ai/compiler/compiler.py:894-907 | instances form a cycle exactly when their deployments do |
| EdgeGeneration.CompiledPlanValidIff | mininet_ai/compiler/compiler.py:867-944 | a compiled plan is a valid graph, except exactly a hierarchy whose declared relation has a cycle |
| EdgeGeneration.CompileAndBuild | mininet_ai/coordination/graph.py:34-65 | compiling and then building fails only for unknown names and cyclic hierarchies |
| Channel.InMemoryMessageChannel.SendMessage | mininet_ai/coordination/channel.py:98-122 | accepts a message unless the channel is closed, ever accepted its id, or is full, and says which |
| Channel.InMemoryMessageChannel.TryReceive | mininet_ai/coordination/channel.py:124-156 | takes the oldest wanted message, and ends without one only when closed |
| Channel.ChannelConserves | mininet_ai/coordination/channel.py:98-156 | over any run what was accepted is what was handed out together with what waits, within the bound |
| Channel.ReceivedOnce | mininet_ai/coordination/channel.py:98-156 | no message is handed out twice |
| Channel.FirstInFirstOut | mininet_ai/coordination/channel.py:124-156 | without a filter messages come out in the order they went in |
| Measures.NoInfiniteDescent | mininet_ai/coordination/routing.py:362-436 | the lexicographic order that bounds the coordination loop has no infinite descent |
| Routing.EventKeepsSound | mininet_ai/coordination/routing.py:362-436 | every step keeps each submitted message running or recorded exactly once, and every trail an authorized walk within the hop limit |
| Routing.RequestNeverStuck | mininet_ai/coordination/routing.py:362-436 | an active request always has a next step |
| Routing.HopLimitUnreachable | mininet_ai/coordination/routing.py:729-745 | unless the plan is distributed and has edges, no authorized delegation is refused for its hop count |
| HopLimits.HopLimitReachable | mininet_ai/coordination/routing.py:729-745 | some run of requests over the channel records a hop limit issue if and only if the plan is distributed and has an edge |
| HopLimits.HopLimitNeverRecorded | mininet_ai/coordination/routing.py:729-745 | without peer edges no reachable request ever records that the hop limit was exceeded |
| Routing.ChainsAreBounded | mininet_ai/coordination/routing.py:729-767 | in every mode an accepted chain has at most twice as many deliveries as there are agents |
| Routing.EventLowersWork | mininet_ai/coordination/routing.py:362-436 | every step lowers the work left, counted by remaining hops |
| Routing.CoordinateTerminates | mininet_ai/coordination/routing.py:319-436 | for every schedule and all answers, with any number of delegations in each response, a request cannot step for ever |
| Coordination.TakeFindsOwn | mininet_ai/coordination/routing.py:511-523 | a take with an eligible message never comes back empty and only takes the request's own message |
| Coordination.NextKeepsSystem | mininet_ai/coordination/routing.py:351-436 | with any number of requests on one channel, every step keeps each unsubmitted message in the channel and owned by one request |
| Coordination.EachMessageRecordedOnce | mininet_ai/coordination/routing.py:351-436 | a finished request has exactly one invocation record or failure issue for each message it had accepted |
| Coordination.MessagesHaveOneOwner | mininet_ai/coordination/channel.py:98-122 | no message is accepted for two requests |
| Coordination.LeftBehindExactly | mininet_ai/coordination/routing.py:351-436 | once no request is active, a message is in the channel if and only if some step made its request fail while it was accepted and not submitted: a lease for another agent, an empty message id, or another exception |
| Coordination.WrongLeaseStrandsRoot | mininet_ai/coordination/routing.py:351-363 | in any run, the root of a request whose lease is for another agent than its entry agent stays in the channel whatever happens before or after |
| Coordination.EmptyIdStrandsMessages | mininet_ai/coordination/routing.py:745-790 | in any run, an empty id for an authorized delegation leaves every accepted, unsubmitted message of the request in the channel for good |
| Leases.EveryRunBalanced | mininet_ai/coordination/routing.py:470-523 | under every interleaving the active count is the number of leases whose callback has not run and the sum of the agents' counts, never negative and within all limits |
| Leases.ActiveCountsOpen | mininet_ai/coordination/routing.py:144-168 | the active count is the number of unreleased leases exactly when no close is halfway |
| Leases.ReleasedAtMostOnce | mininet_ai/coordination/routing.py:153-157 | however often a lease is closed, its callback runs at most once |
| Leases.InvocationSlots.TryReserve | mininet_ai/coordination/routing.py:490-509 | allocates exactly when both limits leave room |
| Leases.InvocationSlots.RunRelease | mininet_ai/coordination/routing.py:503-509 | gives back one slot of the pool and of the agent |
| Leases.InvocationLease.CloseLease | mininet_ai/coordination/routing.py:153-157 | the first close gives the slot back and later ones do nothing |
| Triggers.EveryRunIsSound | mininet_ai/runtime/continuous.py:404-700 | in every reachable state queues and the global count are within their limits, the counters balance, and each agent has at most one tick that is queued or marked as running |
| Triggers.OneTickExactly | mininet_ai/runtime/continuous.py:564-684 | an agent has at most one tick queued or running throughout a run if and only if no section enqueues a tick for it while it is unmarked with an empty queue, an unmarked tick of it is running and there is room |
| Triggers.EnqueueSecondTick | mininet_ai/runtime/continuous.py:564-624 | from at most one tick, enqueuing one match makes a second exactly under that guard |
| Triggers.OtherActionsAddNoTick | mininet_ai/runtime/continuous.py:404-700 | nothing but enqueuing for an agent adds to its ticks |
| Triggers.TicksBound | mininet_ai/runtime/continuous.py:647-684 | an upper bound in every reachable state: the ticks of an agent exceed one at most by those taken on the failing path and still processed |
| Triggers.FailingPathAllowsTwoTicks | mininet_ai/runtime/continuous.py:662-671 | a run in which an agent has two ticks |
| Triggers.ContinuousRuntime.EnqueueMatch | mininet_ai/runtime/continuous.py:564-624 | one match is coalesced, replaces a queued item of its key, is appended, evicts the oldest, or is refused, with the counters to match |
| Triggers.ContinuousRuntime.TakeItem | mininet_ai/runtime/continuous.py:626-684 | takes the oldest item and marks the agent of a tick, except on the failing path |
| Triggers.ContinuousRuntime.FinishItem | mininet_ai/runtime/continuous.py:640-700 | a finished tick frees its agent |
| Triggers.ContinuousRuntime.DropQueued | mininet_ai/runtime/continuous.py:419-435 | a non-draining stop empties every queue and counts each dropped item |
| Sorting.SortForgetsOrder | mininet_ai/compiler/compiler.py:359-362 | the name-sorted records do not depend on declaration order |
| Addresses.AllocateAddresses | mininet_ai/compiler/compiler.py:356-401 | first fit; it fails exactly for an invalid or shared explicit address, or when more addresses are needed than the subnet has |
| Addresses.ReserveExplicit | mininet_ai/compiler/compiler.py:366-385 | succeeds exactly when every explicit address is usable and none is shared |
| Addresses.FirstFitDistinct | mininet_ai/compiler/compiler.py:387-401 | no two interfaces share an address and every address is usable |
| Addresses.AllocationForgetsOrder | mininet_ai/compiler/compiler.py:359-401 | the addresses do not depend on declaration order |
| Dpids.AllocateDpids | mininet_ai/compiler/compiler.py:437-474 | for fewer than 2^64 switches it ends, keeps every fixed id, stays in range, and fails exactly when two fixed ids clash |
| Dpids.FirstFree | mininet_ai/compiler/compiler.py:463-474 | probing ends at the first id from the hash that is not owned |
| Dpids.PlacedDistinct | mininet_ai/compiler/compiler.py:437-474 | no two switches share an id |
| Dpids.DpidsForgetOrder | mininet_ai/compiler/compiler.py:437-474 | the ids do not depend on declaration order |
| Ports.NumberPorts | mininet_ai/compiler/compiler.py:216-235 | ports keep explicit numbers and get the least free one otherwise; numbers are distinct, and it fails exactly when two ports ask for the same |
| Ports.NumbersDistinct | mininet_ai/compiler/compiler.py:216-235 | the numbers of a switch differ if and only if those its ports ask for do |
| Ports.NamesInjective | mininet_ai/compiler/compiler.py:206-235 | different owners or numbers have different default names |
| Adapters.DeclareAdapters | mininet_ai/compiler/compiler.py:186-244 | fails exactly when two ports of a switch ask for one number or a name repeats or is in use; otherwise it declares exactly the interfaces by index and the ports by number, with distinct numbers for each owner |
| Adapters.RegisterEach | mininet_ai/compiler/compiler.py:193-200 | registers adapters in order and fails exactly when a name repeats or is reserved |
| Links.CreateAutomatic | mininet_ai/compiler/compiler.py:247-283 | a new adapter gets the least number its node does not use, and fails exactly when the default name for it is reserved |
| Links.ResolveLinks | mininet_ai/compiler/compiler.py:286-353 | every endpoint gets the adapter that the declared adapters and the earlier endpoints determine in closed form, all different and each of its own node; it fails exactly at the first endpoint for which there is none |
| Links.FreeIsSpare | mininet_ai/compiler/compiler.py:319-329 | the first unused adapter of a node is the declared one not named so far whose place is the number of earlier endpoints without a name |
| LinkOrder.OrderMatters | mininet_ai/compiler/compiler.py:319-339 | an endpoint without a name before one that names the node's first adapter makes the latter fail; the other order succeeds unless an automatic name is needed and reserved |
| LinkOrder.NamedFirstNeverWorse | mininet_ai/compiler/compiler.py:286-353 | if the endpoints of a list can be attached in its order, they can be with those that name an adapter first |
| Topology.AttachLinks | mininet_ai/compiler/compiler.py:477-487 | from resources and links to attached adapters: fails exactly when names repeat, adapters cannot be declared or an endpoint cannot be attached, and otherwise adapter numbers are unique for each owner |
| Telemetry.SplitJoin | mininet_ai/runtime/telemetry.py:458-477 | for keys without dots of which the first is not empty, splitting a joined path gives back its keys |
| Telemetry.Flatten | mininet_ai/runtime/telemetry.py:458-465 | builds a dictionary that holds one of the leaves met at each path |
| Telemetry.FlatteningExact | mininet_ai/runtime/telemetry.py:458-465 | for clean keys a flattening is exactly the leaves, one for each path |
| Telemetry.AssignChanges | mininet_ai/runtime/telemetry.py:468-477 | an assignment changes its own path and what lay below it, and no other leaf |
| Telemetry.AggregateSamples | mininet_ai/runtime/telemetry.py:480-512 | drops the target exactly when no sample has a path; any leaf path of the result holds the aggregation of that leaf; and one sample under `latest` comes back if and only if it is a non-empty object without dotted keys, empty top keys and empty sub-objects |
| Telemetry.ReproducedIff | mininet_ai/runtime/telemetry.py:458-512 | assigning the leaves of one sample in any order gives the sample if and only if it is such an object |
| Telemetry.EmptyKeys | mininet_ai/runtime/telemetry.py:458-477 | an empty key below the top comes back and one at the top does not |
| Telemetry.LookupFindsLeaf | mininet_ai/runtime/telemetry.py:515-523 | looking up a dotted path finds exactly the numeric leaf at its keys |
| Telemetry.SameLeavesSameValue | mininet_ai/runtime/telemetry.py:458-477 | values without empty sub-objects are determined by their leaves |
| Telemetry.EmptyObjectsVanish | mininet_ai/runtime/telemetry.py:458-465 | an empty sub-object leaves no path behind |
| Telemetry.DottedKeysCollide | mininet_ai/runtime/telemetry.py:458-465 | a dotted key and a nested key share one path, so one leaf is lost |

## Left out

- The direct agent invocation path, which takes no reservation, and reads or writes that a response does not declare: serializability is claimed for coordinated invocations and their declared keys, as the code provides it.
- Several runs at once: one run id is fixed, and state namespaces are structured values instead of strings.
- Candidate ids are pairs of invocation and proposal, and effect lists are sets; neither order nor duplicates of effects are observed by the code that is modelled.
- An invocation's snapshot and response are fixed when it is prepared; how a model or provider arrives at the response is outside the model, and so is what a capability does on the network, which answers with an arbitrary status.
- A wait on a condition is one critical section up to the wait and one for each wake-up; timeouts of waits, spurious scheduling fairness and thread starvation are not modelled.
- SQLite files, locks, pragmas and storage failures; JSON encoding is taken as lossless and the clock of a batch as a parameter.
- Sessions, audit sinks, logging, ledgers, exports, the control socket and the command line.
- Conversation memory and the context handed to agents; schema validation, authorization of capabilities and YAML loading, whose conclusions (unique proposal ids, a refusal is never a success, names within their grammar) are preconditions.
- Commitment.NeverStuck: does not model an action that never returns or a thread that dies inside its commit section.
- Retries.RetriesAreSafe: takes reported success of a step to mean that its rule is installed, and assumes that no one else edits the rules; evidence rechecks and the model's choice between recovery and no action are not modelled, since an attempt that does not recover proposes nothing.
- Routing.CoordinateTerminates: an agent that never answers stops a request without a step, and polling turns in which nothing happened are not steps.
- Coordination.NextKeepsSystem: the slots a take must find free are an arbitrary choice of eligible messages; the budget itself is in `Leases`. An executor is only shut down once no request is active, so a refused submission appears as any other exception; the sessions that count active requests are not modelled.
- The channel refuses a capacity below one when it is created; here that is a precondition of its constructor.
- Graph.Build: the ready queue and the destination lists follow the order in which agents and edges are listed instead of being sorted; no result depends on it.
- EdgeGeneration.Compile: neighbouring nodes of links are an input, and the final sort of the edges is any listing of the set.
- Triggers.EveryRunIsSound: event matching, cooldowns and sequence checks are inputs of the dispatcher; several workers of one agent, retries and the supervisor appear only as the order in which items are taken and finished. The counters of evicted, refused and stop-time items, which the report folds into dropped and rejected, are kept apart.
- Addresses.AllocateAddresses: addresses are numbers, and MAC addresses are left out because they repeat the same first-fit scheme.
- Dpids.AllocateDpids: the name hash is any function into 64 bits.
- Links.ResolveLinks: link attributes are not modelled, and links appear as the list of their endpoints; when it fails at a named endpoint whose adapter is not declared, which of three errors it reports is not stated.
- Topology.AttachLinks: the checks of parents, parent cycles and controller references, which come between the name checks and the declarations, are left out.
- Telemetry.AggregateSamples: one target at a time, numbers are exact reals, and windows, detectors and rolling baselines are left out.
- The diamond topology, live end-to-end runs, substrate drivers and reporting are outside the model.
