# A verified model of the ECS scheduler

This project models the tick engine of an entity-component-system library and proves what its
parts promise each other. Four pieces make up the model.

- **The tick.** A tick runs the synchronized groups into one shared command buffer, hands the
  async groups to a pool of workers, waits for their results in dispatch order, applies their
  commands, applies the shared buffer, and only then advances the tick index. `TickSpec` gives
  the meaning of a tick as a function of what its cancellation checks and its job handles answer,
  and `FirstPhase` says in closed form where the loop over the groups ends and what it has gathered.
  `GroupRunner`, `TickLoop` and `Scheduler` are the loops of the code, proved against it.
  `WorkerPool` is the pool as a transition system of submitters, workers and closers, and
  `ConcurrentTick` joins the driver to it: every schedule that ends a tick ends it as `TickSpec`
  says.
- **Admission and ordering.** `Admission`, `Claims` and `Ordering` cover the access checks made when
  a group is registered, the owner and reader indexes that stand in for a pairwise check, the turn order,
  and why that order does not matter for groups that do not conflict.
- **Component stores.** `DenseStore` and `SharedStore` are the two storage strategies, each proved
  against a finite map (`Stores`); `World` puts them under the deferred commands of `Commands`, whose
  effects `CommandEffects` spells out entry by entry.
- **The entity registry.** `EntityRegistry` is the slot allocator with its free list and
  generation counters.

Data that the code updates in place are classes with the same fields; protocols between
goroutines are step systems; everything else is a value. A system is an oracle of system, tick
and attempt: it answers with the commands it defers, whether it skipped, and an error.

The results fit together as follows. `ScheduleDoesNotMatter` says that, with a live context and an
open pool, every interleaving ends a tick in exactly the outcome of the tick without workers, which
is the one `Scheduler.Tick` computes when there is no pool; `RunIsDeterministic` says the same of a
whole run. With a pool, `Scheduler.Tick` is proved for whatever the handles answer, and
`EveryScheduleIsATick`, `ReceivedAnswers` and `CancelledHandle` say what they can answer.
`PrefixLawOnEverySchedule` says what reaches the world on every other path, with cancellation and
Close racing the tick. `TickReturns` and `RunsAreBounded` exclude deadlock.

Where the documentation and the code differ, the model follows the code. The documentation calls
async groups non-blocking (README.md:22), but a tick waits for each of its handles before it
returns nil (scheduler_impl.go:395-396). A group that the configured order names twice takes two
turns in a tick (scheduler_impl.go:332-337), which `TurnsPerGroup` states. The registry accepts a
forged identifier with an even generation (`ForgedIdentifierIsAccepted`), and
`DestroyKeepsInvariantIff` says exactly when that breaks its representation. Two counters of 32
bits wrap: `RunsAreSafe` and `SharedStore.Store.Set` give the exact condition under which the code
keeps its promises nevertheless, and `WrapReissuesAnIdentifier` and `WearOut` reach the failures.

## Model

| member | source | states |
|---|---|---|
| Intervals.OpensOncePerWindow | scheduler_impl.go:605-612 | In any window of `Every` consecutive ticks the gate opens on exactly one, and which one. |
| Intervals.OpenCountClosedForm | scheduler_impl.go:605-612 | Over the first n ticks the gate opens ceil((n+o)/e) - ceil(o/e) times. |
| Intervals.BothOpenNeedsGcd | scheduler_impl.go:605-612 | A tick that passes the group's gate and the system's gate forces gcd(a,b) to divide the difference of the phases. |
| Intervals.GcdGivesBothOpen | scheduler_impl.go:605-612 | If the gcd divides the difference, a tick below lcm(a,b) passes both gates. |
| Intervals.BothOpenIsOneClass | scheduler_impl.go:605-612 | The ticks that pass both gates form one residue class modulo lcm(a,b). |
| Intervals.BothEverOpenIff | scheduler_impl.go:605-612 | Some tick passes both gates if and only if the gcd divides the difference of the phases. |
| Intervals.LcmDividesCommon | scheduler_impl.go:605-612 | Every common multiple of two periods is a multiple of the least one, which makes the class modulo lcm(a,b) exact. |
| EntityRegistry.Registry.Create | entity.go:56-73 | Pops the last free slot or appends one, advances its counter with 32-bit wrap, and returns index and generation. |
| EntityRegistry.Registry.Destroy | entity.go:76-92 | Refuses zero and dead identifiers without a change; otherwise advances the counter, frees the slot and lowers the count. |
| EntityRegistry.Registry.IsAlive | entity.go:95-103 | Answers whether the identifier is not zero and its slot carries its generation. |
| EntityRegistry.Registry.Count | entity.go:106-110 | With the representation invariant, the number of odd generations, that is, of allocated slots. |
| EntityRegistry.CreateKeepsInvariant | entity.go:56-73 | Create keeps "odd generation exactly when not free, free list without repeats, live = slots - free" while a slot is available, and on every counter value, wrapped ones included, issues an odd, non-zero identifier that was not alive. |
| EntityRegistry.DestroyKeepsInvariantIff | entity.go:76-92 | Destroy keeps the representation if and only if it refuses the identifier or the generation is odd; a released odd identifier is dead. |
| EntityRegistry.AliveCountsOdd | entity.go:48-92 | The live counter equals the number of odd generations. |
| EntityRegistry.CreatedIsAliveIffRoom | entity.go:56-118 | The identifier just created is alive if and only if the slot count had not reached 2^32 - 1, because IsAlive truncates the count. |
| EntityRegistry.CreatedCounter | entity.go:56-73 | With a slot available: the last slot freed is taken again with its counter one higher, or a new slot gets generation 1; no other counter changes. |
| EntityRegistry.CreateRecyclesLast | entity.go:56-92 | The free list is a stack: a Create after a Destroy takes the slot just released, with its counter advanced twice, and leaves everything else as it was. |
| EntityRegistry.RunKeepsSafe | entity.go:56-118 | Every legal run keeps the invariant relating slots, issued and live identifiers; a run is legal if it destroys only issued identifiers and no Create runs out of indexes or recycles a counter that has wrapped to zero. |
| EntityRegistry.CreateReissuesIff | entity.go:61-72 | With a slot available, Create repeats an identifier if and only if the counter of the slot it recycles has wrapped to zero. |
| EntityRegistry.StepIsSoundIff | entity.go:56-118 | What callers rely on survives an operation if and only if the operation is legal, which the caller can tell before it; destroying an issued identifier always is. |
| EntityRegistry.RunsAreSafe | entity.go:56-118 | For every run that destroys only issued identifiers: no identifier is issued twice or is zero, and each is alive exactly from its Create to its Destroy, throughout the run, if and only if no Create runs out of indexes or recycles a counter that has wrapped to zero. |
| EntityRegistry.DestroyedStaysDead | entity.go:76-118 | A released identifier is dead after every legal continuation of the run. |
| EntityRegistry.WrapReissuesAnIdentifier | entity.go:69-72 | The wrapped state is reached from the empty registry: after 2^31 times creating and destroying one entity, each legal, the next Create returns the first identifier again. |
| EntityRegistry.ForgedIdentifierIsAccepted | entity.go:76-92 | After one Create and Destroy, the identifier of the next, even generation was never issued, yet is alive, and destroying it puts the slot on the free list twice. |
| Stores.SharedSetIsMapUpdate | ecs/storage/shared.go:104-125 | Up to deep equality, Set of the shared strategy is a plain map update. |
| Stores.DenseSetEvictsThenUpdates | ecs/storage/dense.go:73-86 | Set of the dense strategy is a map update after evicting every other generation of the index. |
| Stores.RepresentativeIsUnique | ecs/storage/shared.go:154-172 | The copy that deduplication picks does not depend on the order in which the value map is searched. |
| Stores.SharedSetKeepsDeduplicated | ecs/storage/shared.go:154-172 | After a Set, deeply equal entries are still one copy. |
| Stores.StrategiesAgreeIff | ecs/storage/dense.go:44-112 | The two strategies look the same (Has, Get, Len, the pairs iterated, and the answers of Set and Remove) at every point of a trace if and only if the trace never stores two generations of one index at once. |
| Stores.ListingShowsPairs | ecs/storage/shared.go:89-102 | Whatever the order of an iteration, the set of pairs it shows is that of the map. |
| Stores.VisitedStep | ecs/storage/dense.go:61-71 | Visiting from the front and stopping at the first refusal shows exactly the entries up to and including it. |
| DenseStore.EntriesListContents | ecs/storage/dense.go:61-71 | The occupied slots list every entry of the map once, and their number is the map's size. |
| DenseStore.OccupiedIsSize | ecs/storage/dense.go:40-51 | The number of occupied slots is the number of stored identifiers. |
| DenseStore.Store.Len | ecs/storage/dense.go:40-42 | The counter equals the size of the map. |
| DenseStore.Store.Has | ecs/storage/dense.go:44-51 | True exactly for identifiers in the map, by index and generation. |
| DenseStore.Store.Get | ecs/storage/dense.go:53-59 | The mapped value, or none. |
| DenseStore.Store.Iterate | ecs/storage/dense.go:61-71 | Visits the entries in index order, each once, up to the first the visitor refuses. |
| DenseStore.Store.Set | ecs/storage/dense.go:73-86 | Refuses the zero identifier; otherwise the map becomes the evict-then-update map, and the counter follows the occupied slots. |
| DenseStore.Store.Remove | ecs/storage/dense.go:88-97 | Removes exactly that identifier, and answers whether it was there. |
| DenseStore.Store.Clear | ecs/storage/dense.go:99-104 | Empties the map and keeps the slots. |
| DenseStore.Store.EnsureCapacity | ecs/storage/dense.go:106-112 | Growing the slots leaves the map and the count alone. |
| SharedStore.Store.Len | ecs/storage/shared.go:58-62 | The counter equals the size of the map, unless the store is damaged. |
| SharedStore.Store.Has | ecs/storage/shared.go:64-69 | True exactly for entities in the map, unless the store is damaged. |
| SharedStore.Store.Get | ecs/storage/shared.go:71-87 | The mapped value, or none. |
| SharedStore.Store.Iterate | ecs/storage/shared.go:89-102 | Visits every entry once, in some order, up to the first the visitor refuses. |
| SharedStore.Store.Set | ecs/storage/shared.go:104-125 | Refuses the zero entity; otherwise the map becomes the deduplicating update, with exact reference counts, if and only if the value is not stored under an id that another entity is assigned. A store that does so is damaged until cleared; below 2^32 - 1 ids none is. |
| SharedStore.Store.ReleaseLocked | ecs/storage/shared.go:112-118 | The first half of Set: the counts are exact for the other entities, which hold what they held, and the entity is counted once. |
| SharedStore.Store.AssignLocked | ecs/storage/shared.go:120-122 | The second half of Set: the map is the deduplicating update if and only if no id in use is stored over. |
| SharedStore.Store.Remove | ecs/storage/shared.go:127-141 | Removes exactly that entity, answers whether it was there, keeps the counts exact, and never damages the store. |
| SharedStore.Store.Clear | ecs/storage/shared.go:143-150 | Empties the map, which repairs a damaged store; value ids are not reused. |
| SharedStore.Store.DecrementRefCountLocked | ecs/storage/shared.go:175-185 | Drops one reference: the counts are exact for the other entities, which keep their values. |
| SharedStore.Store.FindOrCreateValueLocked | ecs/storage/shared.go:154-172 | Whatever the search order, the entity gets the representative of its value and the counts are exact once it is assigned, if and only if no new value is stored under an id in use. |
| SharedStore.Store.Statistics | ecs/storage/shared.go:187-197 | Unless the store is damaged, the unique count is the number of distinct stored values and never exceeds the entity count; the ratio is at least one. |
| SharedStore.DropReference | ecs/storage/shared.go:175-185 | Dropping an entity with one reference to its value keeps every count exact and positive and no value id missing. |
| SharedStore.AddReference | ecs/storage/shared.go:154-161 | Counting one more reference to a deeply equal value keeps the invariant. |
| SharedStore.AddValueIff | ecs/storage/shared.go:163-171 | A new value stored under the next id keeps the counts exact, the values pairwise different and every other entity's value if and only if that id is not in use. |
| SharedStore.OverwrittenIsLost | ecs/storage/shared.go:163-171 | An entity whose value id is stored over reads the new value. |
| SharedStore.WearOut | ecs/storage/shared.go:163-171 | The failure is reached by Set alone: one entity keeps the first value while another is given 2^32 new ones, the last of which is stored over the first. |
| SharedStore.ContentsAreDeduplicated | ecs/storage/shared.go:152-172 | Deeply equal values are stored once. |
| SharedStore.UniqueIsDistinct | ecs/storage/shared.go:187-197 | As many values are stored as there are distinct contents, and no more than entities. |
| Commands.FailureHasNoEffect | commands.go:52-91 | A command that fails leaves the world as it was. |
| Commands.ApplyConcat | storage_provider.go:47-57 | Applying a concatenation applies the second part only if the first ran to its end. |
| Commands.FoldAppliesPrefix | storage_provider.go:47-57 | Apply leaves the world of exactly the commands before the first failing one, and stops only at a failing command. |
| Commands.BlockFrame | commands.go:62-91 | A block of adds and removes within a write set succeeds and leaves everything outside the set alone. |
| Commands.BlockIsLocal | commands.go:62-91 | What a block leaves in a store depends only on what was in that store. |
| Commands.OrderEffect | commands.go:62-91 | Under disjoint write sets each store ends as if only the block that owns it had been applied. |
| Commands.ConflictFreeBlocksCommute | commands.go:62-91 | Blocks with disjoint write sets leave the same world in any two orders. |
| CommandEffects.CommandIsExact | commands.go:44-91 | What every command does, by its outcome. A remove takes the entity out of the store and no other entry; an add gives it a deeply equal value and touches no entry but those a dense store evicts; a create puts in the cell an identifier that was not alive and, with room, now is; a destroy leaves its identifier dead; everything else stays. Each refusal and its error are given by the guard it fails. |
| CommandEffects.IssueIsExact | entity.go:56-73 | With the registry's invariant and room: the new identifier was not alive and is, and no other identifier of odd generation becomes or ceases to be alive. |
| CommandEffects.AddIsExact | commands.go:62-75 | The entity ends with the given value or, in a shared store, with the deeply equal copy another entity holds; the other entries stay, but for those with its index in a dense store. |
| CommandEffects.DestroyIsExact | commands.go:52-60 | The identifier is dead after it, whatever its generation; stores, cells and identifiers with another index do not change. |
| CommandEffects.ApplyIsChain | storage_provider.go:47-57 | Applying a list passes through one world per command that took effect, each doing what the command promises, and ends after the last command or at the first that fails. |
| World.NewStore | storage_provider.go:19-19 | A new store of either strategy is empty. |
| World.World.RegisterComponent | storage_provider.go:14-33 | Refuses a missing strategy and a registered type without a change; otherwise adds one empty store. |
| World.World.View | storage_provider.go:35-45 | A store exactly for the registered types, valid and with the contents that the world's state gives it. |
| World.World.ApplyCreate | commands.go:44-50 | Creates an entity and writes its identifier to the target, if there is one. |
| World.World.ApplyDestroy | commands.go:52-60 | Destroys, or fails for a zero or stale identifier; stores keep their entries. |
| World.World.ApplyAdd | commands.go:62-75 | Sets the component, or fails for the zero entity or an unregistered type; nothing else changes. A shared store becomes damaged exactly when the value is stored over an id in use. |
| World.World.ApplyRemove | commands.go:77-91 | Has the effect and the error of the remove command, which `CommandEffects.CommandIsExact` spells out; damages no store. |
| World.World.ApplyCommand | storage_provider.go:48-55 | Does to the world what the command promises, entry by entry, with its error, a nil command having no effect; only an add can damage a store, and exactly when it stores over an id in use. |
| World.World.Apply | storage_provider.go:47-57 | The world, the number of commands applied and the error are those of the fold that stops at the first error, and a chain of worlds leads there in which each command did what it promises, unless a store was damaged on the way. |
| World.FoldStep | storage_provider.go:47-57 | One more command of a fold that has succeeded so far extends it or ends it. |
| CommandBuffer.Buffer.Len | command_buffer.go:16-18 | The length of the buffered sequence. |
| CommandBuffer.NonNilIsExact | command_buffer.go:21-26 | Of a list of pushed commands exactly those that are not nil are kept, each once and in order. |
| CommandBuffer.Buffer.Push | command_buffer.go:21-26 | Appends a command that is not nil, in place while the backing array has room and in a new array otherwise. |
| CommandBuffer.Buffer.Drain | command_buffer.go:29-33 | Hands off the slice and forgets it. |
| CommandBuffer.Buffer.Snapshot | command_buffer.go:36-38 | The length of the buffered sequence. |
| CommandBuffer.Buffer.Restore | command_buffer.go:41-49 | Truncates to the snapshot, clamped at both ends, and keeps the backing array. |
| CommandBuffer.BufferPool.Get | command_buffer.go:64-66 | An idle buffer, kept once less often than before, or a new empty one. |
| CommandBuffer.BufferPool.Put | command_buffer.go:69-75 | Empties the buffer before keeping it. |
| CommandBuffer.Perform | command_buffer.go:21-75 | One operation on any of the buffers is the operation on sequences: a Push appends, a Restore truncates, a Put empties, and a Drain returns the very slice the buffer held; a request is answered with a buffer put back and not handed out since, or a new one; and every backing array keeps one owner. |
| CommandBuffer.PerformOn | command_buffer.go:21-49 | The same for an operation on a buffer in use, perhaps one used after it was put back. |
| CommandBuffer.OneChanged | command_buffer.go:21-49 | When one buffer writes in place, the other buffers and all drained slices hold what they held. |
| CommandBuffer.Interleave | command_buffer.go:21-75 | For any interleaving of operations on any buffers: the buffers end with what the operations on sequences give, and there is one slice per Drain, in order, each holding at the end what its buffer held when drained, although Restore followed by Push overwrites a backing array. |
| WorkGroups.UncancelledRunsAgree | scheduler_impl.go:459-507 | A run that is never cancelled does not depend on which cancellation checks it made. |
| WorkGroups.StopIsFirst | scheduler_impl.go:459-497 | The stopping position is the first at which the context is done or a system fails for good. |
| WorkGroups.JudgeIsExact | scheduler_impl.go:474-502 | A due system is called twice exactly if the policy is Retry and its first call errs, else once, and it is its last call that decides: its commands alone are kept if it has no error, and none otherwise. |
| WorkGroups.RunGroupIsExact | scheduler_impl.go:459-507 | Over the systems' answers: the buffer ends as its initial contents and the last-attempt commands, in order, of exactly the due systems that succeeded before the stop; the calls made, the whole summary with its error, and the number of checks follow from the stopping position; total is the number of systems on success. |
| WorkGroups.AttemptsAreBounded | scheduler_impl.go:475-491 | A system is called at most twice, and twice only under Retry. |
| GroupRunner.Context.Err | scheduler_impl.go:460-464 | One cancellation check: done from a fixed check on, for good. |
| GroupRunner.CallSystem | scheduler_impl.go:475-475 | A call defers the commands the oracle gives, nil commands dropped. |
| GroupRunner.RunSystem | scheduler_impl.go:474-493 | Two attempts exactly if the policy is Retry and the first errs, else one; the result is that of the last attempt, and the buffer is the old one plus its commands if it has no error, and the old one otherwise. |
| GroupRunner.RunNext | scheduler_impl.go:465-503 | The loop body after its check: buffer, summary counters and failure are those of one step of the run. |
| GroupRunner.RunWorkGroup | scheduler_impl.go:436-508 | The loop ends with the buffer, summary and number of checks of the run that `WorkGroups.RunGroupIsExact` gives in closed form. |
| TickSpec.Extend | storage_provider.go:47-57 | Applying a list after an effective prefix extends the prefix up to the first failing command. |
| TickSpec.CollectionIsExact | scheduler_impl.go:395-417 | Collecting in dispatch order applies exactly the successful async groups' commands up to the group that aborts or the command that fails. |
| TickSpec.CommitIsExact | scheduler_impl.go:419-434 | After the collection, the tick commits with everything intended applied, or fails at a command with the prefix before it applied. |
| TickSpec.TickPrefixLaw | scheduler_impl.go:368-434 | On every exit path the applied commands are a prefix of the async groups' commands in dispatch order and then the shared buffer: all on nil, none if the first phase stops the tick, the earlier async groups' if one aborts; tick index and last-run marks change only on nil, and for exactly the groups that succeeded. |
| TickSpec.CommitsIff | scheduler_impl.go:395-434 | Once the first phase has ended, a tick returns nil if and only if no async group aborts and the intended commands all apply. |
| TickSpec.RunIsChained | scheduler_impl.go:614-621 | Tick number k of a run has the index k further on, modulo 2^64, starts from the world and marks that the one before left, and makes its checks after those of the ticks before. |
| FirstPhase.FirstPhaseIsExact | scheduler_impl.go:364-393 | The group loop ends the tick at the first turn whose head check finds the context done, with its error, or whose due synchronized group stops before its last system under a policy other than Continue, with that run's error, and at no other; the shared buffer, the handles, the answers of groups run in place, the ids that succeeded, the summaries published and the checks made are given in closed form. |
| FirstPhase.SummaryError | scheduler_impl.go:459-507 | A group's run has an error exactly if it stops before its last system. |
| FirstPhase.TickSucceedsIff | scheduler_impl.go:368-434 | A tick, with or without workers, returns nil if and only if no turn ends it in the sense of `FirstPhaseIsExact`, no due async group fails under a policy other than Continue, and the async groups' commands followed by the synchronized groups' all apply. |
| FirstPhase.TickIsExact | scheduler_impl.go:352-434 | If no turn ends the tick, the prefix law holds for the commands, ids and summaries of the closed form; otherwise the first such turn gives the error, nothing is applied, and index and marks stay. |
| TickSpec.ContinueKeepsOnlySync | scheduler_impl.go:381-408 | Under Continue a failed synchronized group keeps its earlier systems' commands, a failed async group loses all of its own, and neither ends the tick. |
| TickSpec.TurnsInStep | scheduler_impl.go:510-538 | Uncancelled, the first phase passes the same groups with the same effect whether async groups are run in place or dispatched. |
| TickSpec.WorkersDoNotMatter | scheduler_impl.go:510-538 | Uncancelled, a tick whose handles answer what their jobs compute is the tick without workers. |
| TickSpec.Ticks | scheduler_impl.go:614-621 | A run of ticks, with or without workers, stops at the first failing one, and only there. |
| TickLoop.DispatchInline | scheduler_impl.go:510-526 | Without a pool an async group runs in a buffer of its own, its result drops the commands of a failed run, and the buffers kept in the pool stay empty. |
| TickLoop.TakeTurn | scheduler_impl.go:368-393 | One turn of the group loop is the one whose closed form `FirstPhaseIsExact` gives: cancelled, not due, run in place or handed to the workers, succeeded, tolerated or fatal; a synchronized group publishes its summary in every case. |
| TickLoop.RunTurns | scheduler_impl.go:368-393 | The group loop computes the first phase, the summaries it publishes included. |
| TickLoop.CollectOne | scheduler_impl.go:395-417 | One result: its summary published, then its commands applied, or its error tolerated under Continue or fatal. |
| TickLoop.CollectAsync | scheduler_impl.go:395-417 | The collection loop computes the second phase, the summaries it publishes included. |
| TickLoop.CollectAndApply | scheduler_impl.go:395-424 | The results are applied in dispatch order before the shared buffer, and the summaries published are those of the specified tick. |
| TickLoop.FinishTick | scheduler_impl.go:395-424 | After the group loop the tick ends as specified and the shared buffer goes back to its pool, on every path. |
| TickLoop.RunTick | scheduler_impl.go:352-424 | With workers, given what their handles answer, or without, the loops leave the world, error, executed groups, published summaries and number of checks of the specified tick, and every buffer kept in the pool empty, on every path. |
| Admission.ValidateSystemsAccess | scheduler_impl.go:235-300 | Succeeds if and only if nothing is claimed for writing twice and, for async groups, every system allows async and declares no write; the sets are then exactly the declared unions, and an error names a violation that is there. |
| Admission.CheckAsync | scheduler_impl.go:248-260 | Refuses exactly the systems that an async group may not have. |
| Admission.ClaimComponents | scheduler_impl.go:264-275 | Claims a list of components exactly when none repeats or is already owned. |
| Admission.ClaimResources | scheduler_impl.go:276-297 | Claims the written resources exactly when none repeats or is already owned, ignoring empty names, and counts written ones as read. |
| Admission.WritesAreReads | scheduler_impl.go:294-296 | The resources a group writes are among those it reads. |
| Admission.AsyncDeclaresNoWrites | scheduler_impl.go:248-260 | What validation admits for an async group has empty write sets. |
| Admission.ClashesIffIncompatible | scheduler_impl.go:302-326 | The check against the indexes rejects if and only if the check against every registered group would. |
| Admission.CheckCrossGroupConflicts | scheduler_impl.go:302-326 | Returns an error exactly on a clash, and one that names a clash. |
| Admission.CheckResourceWrites | scheduler_impl.go:308-319 | Finds a written resource that another group owns or reads, if there is one. |
| Admission.RecordAccess | scheduler_impl.go:206-219 | Adds the group to the owner and reader indexes and changes nothing else in them. |
| Admission.AdmissionKeepsInvariant | scheduler_impl.go:202-219 | After an admission the groups are pairwise compatible and the indexes equal what recomputing them gives. |
| Claims.AdmissibleMeans | scheduler_impl.go:235-300 | A list of systems is admissible if and only if no system writes a component or named resource twice, no two systems write the same, and in an async group every system allows it and declares no write. |
| Claims.DeclaredMeans | scheduler_impl.go:261-297 | The recorded sets by membership: a component or non-empty resource name is in one exactly if some system declares it so, and every resource access counts as a read. |
| Claims.NamesMean | scheduler_impl.go:276-297 | A name counts exactly if it is not empty and the list has an access of that name, a writing one where writes are asked for. |
| Claims.CompatibleMeans | scheduler_impl.go:302-326 | Two groups are compatible if and only if no system of one writes a component that one of the other writes, or a named resource that one of the other reads or writes, nor the other way round. |
| Ordering.TurnsPerGroup | scheduler_impl.go:328-350 | A registered group takes as many turns as the configured order names it, or one if it is not named; others take none. |
| Ordering.TurnOrderIsPermutation | scheduler_impl.go:328-350 | Without repeats in the configured order, the turn order is a permutation of the registered groups. |
| Ordering.TurnOrderIsExact | scheduler_impl.go:328-350 | By positions: the turns are the registered ids of the configured order, repeats included and in its order, followed by the ids it does not name in registration order. |
| Ordering.NoneBeforeConfigured | scheduler_impl.go:332-347 | No group that the configured order names has its turn after one that it does not name. |
| Ordering.TurnOrderDoesNotMatter | scheduler_impl.go:328-350 | Groups that succeed within disjoint write sets make a tick leave the same world, tick index and last-run marks in any two turn orders. |
| Ordering.RunOrderDoesNotMatter | scheduler_impl.go:328-350 | The same for every tick of a run of any length. |
| Ordering.SyncOrderDoesNotMatter | scheduler_impl.go:328-350 | For groups as admission leaves them, async ones included, any two configured orders make every tick of a run leave the same world, tick index and last-run marks. |
| Scheduler.RebuildOrder | scheduler_impl.go:328-350 | The two loops compute the configured groups in order and then the others in registration order, as positions in the two lists say. |
| Scheduler.AppendRemaining | scheduler_impl.go:339-347 | The second loop appends the groups not seen yet, in registration order. |
| Scheduler.PresentSystems | scheduler_impl.go:176-182 | Missing systems are skipped; `PresentIsExact` says which are kept and in which order. |
| Scheduler.PresentIsExact | scheduler_impl.go:176-182 | Exactly the systems that are there are kept, each once and in the order given. |
| Scheduler.TurnsAreInOrder | scheduler_impl.go:328-350 | In a scheduler as registration leaves it, the turns are those of the configured groups that are registered, in its order, and then the other groups in registration order. |
| Scheduler.Admit | scheduler_impl.go:202-220 | Enters a group if and only if it is compatible with every registered one; a refusal changes nothing and names a conflict. |
| Scheduler.AdmittedGroupsDoNotClash | scheduler_impl.go:152-223 | What admission is for: in a scheduler as registration leaves it, no two systems of different groups write one component, and none of them writes a named resource that the other accesses. |
| Scheduler.ConfiguredOrderDoesNotMatter | scheduler_impl.go:328-350 | Two schedulers with equal groups registered in the same order and any two configured orders run alike, tick by tick, when every group succeeds within its declared writes. |
| Scheduler.Scheduler.WithSyncOrder | scheduler_impl.go:87-93 | Stores the order and rebuilds the turns: the groups it names first and in its order, then the others in registration order. |
| Scheduler.Scheduler.RegisterWorkGroup | scheduler_impl.go:152-223 | Succeeds if and only if the id is new and not empty, the systems are admissible and the group is compatible with every other; a refusal leaves groups, indexes and order unchanged and its error names an obstacle that is there; the worker pool is made exactly when an async group gets past the id checks and there is none, with at least one worker. |
| Scheduler.MarkExecuted | scheduler_impl.go:427-431 | Marks exactly the groups that ran. |
| Scheduler.Scheduler.Tick | scheduler_impl.go:352-435 | With or without a worker pool, the scheduler after a tick is the specified one: world, error, tick index, last-run marks, and the summaries its loops published. |
| Scheduler.Scheduler.CommitTick | scheduler_impl.go:426-434 | Marks and advances the index, modulo 2^64, and touches neither world nor buffers. |
| Scheduler.Scheduler.Run | scheduler_impl.go:614-621 | Ticks until one fails: the outcomes, the state left and all summaries published are those of the specified run, and the index counts the successes. |
| WorkerPool.StartInv | worker_pool.go:34-52 | A new pool of any size satisfies the invariant. |
| WorkerPool.RunContinues | scheduler_impl.go:459-507 | A job that runs one more system, cancelled now or not, stays on the run of its group. |
| WorkerPool.StepKeepsInv | worker_pool.go:54-154 | Every step of a submitter, worker, closer, waiter or of cancellation keeps the pool's invariant, under which no send or close can panic. |
| WorkerPool.DeliveredExactlyOnce | worker_pool.go:69-118 | On every interleaving, Submit racing Close included: no send after a close, at most one result and one close per handle and one of each when it is answered, the job function called at most once, and never if the pool answered with closed or with the context's error. |
| WorkerPool.AnswersAreFinal | worker_pool.go:69-118 | An answered handle keeps its answer on every continuation. |
| WorkerPool.UndisturbedAnswer | worker_pool.go:69-84 | With an open pool and a live context, the answer is what the job computes, whichever worker ran it and when. |
| WorkerPool.LateSubmissionNeverRuns | worker_pool.go:101-117 | A submission that selects after the pool was closed or its context was done is answered by the pool; its job is never called. |
| WorkerPool.CancelledMidway | scheduler_impl.go:459-464 | Once a job's context is done while a worker is at some position of its run, no continuation calls a further system, and the handle can only be answered the context's error, no commands and the summary of the run stopped there. |
| WorkerPool.StoppedSummary | scheduler_impl.go:459-464 | Such a run has made the calls below its position, and its summary with the context's error is that of the group's run stopped there. |
| WorkerPool.CancelledBeforeStart | worker_pool.go:78-80 | A job whose context is done when a worker has received it is never called, and can only be answered the context's error. |
| WorkerPool.NeverCalled | worker_pool.go:78-118 | At whatever stage: a job that was not called when its context was done never is, and its only answers are the context's error and, of a closed pool, its refusal. |
| WorkerPool.CloseWaitsForWorkers | worker_pool.go:120-129 | When any Close has returned, every worker has exited. |
| WorkerPool.BusyWorkerMoves | worker_pool.go:69-84 | A worker with a job is never blocked, whether or not anyone waits on the handle. |
| WorkerPool.NeverStuck | worker_pool.go:54-154 | While a handle is unanswered or a Close has not returned, some step of the pool is enabled, blocked senders of a closed pool included. |
| WorkerPool.StepDecreases | worker_pool.go:54-154 | Every step of the pool's own lowers the measure. |
| WorkerPool.StepCost | worker_pool.go:54-154 | A submission adds at most seven and the number of its systems to the measure, a Close four, and cancelling or waiting nothing. |
| WorkerPool.RunsAreBounded | worker_pool.go:54-154 | On every run, with callers submitting, closing, cancelling and waiting at any time, the pool's own steps are bounded by the measure and what the arrivals add; where none is left every handle is answered and every Close has returned. |
| ConcurrentTick.StepForetold | scheduler_impl.go:352-435 | No step of driver or pool changes how the tick will end, given what the driver observes. |
| ConcurrentTick.EveryScheduleIsATick | scheduler_impl.go:352-435 | Every schedule that ends a tick, started on any pool state with abandoned jobs or a Close under way, ends it as specified for the checks and results observed. |
| ConcurrentTick.PrefixLawOnEverySchedule | scheduler_impl.go:368-434 | The prefix law holds on every schedule, with cancellation and Close racing the tick. |
| ConcurrentTick.ReceivedAnswers | scheduler_impl.go:395-396 | What the driver receives is the pool's refusal, with its reason, or the result of the job's one run; `CancelledHandle` says where a cancelled one stops. |
| ConcurrentTick.CancelledHandle | scheduler_impl.go:395-396 | On no schedule does the driver receive anything from a job of the tick that was cancelled midway but the context's error, no commands and the summary of the run stopped where it was. |
| ConcurrentTick.ScheduleDoesNotMatter | scheduler_impl.go:352-435 | With a live context and an open pool, every schedule gives the world, error, tick index, last-run marks and summaries of the tick without workers. |
| ConcurrentTick.RunIsDeterministic | scheduler_impl.go:614-621 | A run of ticks has the same outcomes on every schedule, those of the run without workers. |
| ConcurrentTick.EndPool | worker_pool.go:54-154 | Whatever a tick leaves in the pool, the next tick can start from it. |
| ConcurrentTick.TickNeverStuck | scheduler_impl.go:352-435 | Until a tick has returned, the driver or the pool can move. |
| ConcurrentTick.TickReturns | scheduler_impl.go:352-435 | On every schedule, with others submitting, closing and cancelling at any time, the steps of the driver and the workers are bounded by the measure and what the arrivals add, and the tick has returned where none is left. |

## Left out

- Observability output, traces, loggers, tracers and durations: input and output without an effect on the state; the summaries published are a list.
- Mutexes, and calls of Tick or of the builder that overlap: one driver is assumed beside the pool's goroutines and the callers of Submit and Close.
- Systems that reach the world other than through Defer, whose descriptor changes, that panic, submit jobs or do not return; a group named twice in the configured order is assumed to get the same answers in both turns.
- The kinds of context error: cancellation and deadline are one error.
- The internals of reflect.DeepEqual: a value is a content class and an identity, so a value that is not deeply equal to itself is not modelled.
- Custom storage providers, strategies that return no store, stores that are not writable and options of the world: the two built-in strategies only.
- The resource container, priorities, the delta time, WithErrorPolicy, WithAsyncWorkers, WithInstrumentation and Build: thin setters; the error policies already configured are read by RegisterWorkGroup.
- Submit without a job function or on a nil pool, Wait on a nil handle or a second time: single branches without shared state.
- Scheduler.Scheduler.Tick: with a worker pool, dispatching a group and waiting on its handle are given by what the handles answer; the driver's steps through Submit and Wait are those of ConcurrentTick, where driver and workers are values and not methods.
- Scheduler.Scheduler.Run: says nothing about contents once a shared store is damaged on the way; neither does Scheduler.Scheduler.Tick.
- WorkerPool.DeliveredExactlyOnce: the pool's goroutines are steps of a transition system; checking the context and calling the next system of a job is one step, as no other goroutine can tell them apart.
- SharedStore.Store.Len: says nothing about the size of the map of a damaged store, whose entities may have lost their values; nor do Has, Remove and Statistics.
- SharedStore.Store.Statistics: the sharing ratio is a real number, without rounding.
- DenseStore.Store.Iterate: the visitor is a function of the entry, without effects of its own; the same holds for the shared store.
- DenseStore.Store.EnsureCapacity: slots are a sequence field, since no other slice shares their backing array.
- CommandBuffer.Buffer.Push: the growth of a backing array is one choice among those the runtime may make.
- World.World.ApplyCreate: the target pointer of a create command is a numbered cell of the caller.
