/** The scheduler object: registration and ordering of work groups, ticks and runs. */
module Scheduler {
  import opened Prelude
  import opened Intervals
  import opened Commands
  import opened WorkGroups
  import opened Admission
  import opened Claims
  import opened Ordering
  import opened TickSpec
  import opened CommandBuffer
  import opened GroupRunner
  import opened TickLoop
  import World

  /** What a caller asks to register; a missing system is skipped. */
  datatype Config = Config(id: WorkGroupID,
                           mode: Mode,
                           systems: seq<Option<System>>,
                           interval: TickInterval,
                           policy: Policy)

  function Present(systems: seq<Option<System>>): seq<System> {
    if systems == [] then []
    else
      Present(systems[..|systems| - 1]) +
      if systems[|systems| - 1].Some? then [systems[|systems| - 1].value] else []
  }

  function AllSome<T>(s: seq<T>): seq<Option<T>> {
    seq(|s|, i requires 0 <= i < |s| => Some(s[i]))
  }

  lemma OneMorePresent(init: seq<Option<System>>, last: Option<System>)
    ensures AllSome(Present(init + [last])) == AllSome(Present(init)) + if last.Some? then [last] else []
  {
    assert (init + [last])[..|init|] == init;
  }

  /** The systems that are there, in the order they are given. */
  lemma {:induction false} PresentIsExact(systems: seq<Option<System>>)
    ensures Filtered(AllSome(Present(systems)), systems, (o: Option<System>) => o.Some?)
  {
    hide Filtered;
    var keep := (o: Option<System>) => o.Some?;
    if systems == [] {
      NothingFiltered(keep);
      assert AllSome(Present([])) == [];
    } else {
      var n := |systems| - 1;
      PresentIsExact(systems[..n]);
      hide Present, AllSome;
      OneMorePresent(systems[..n], systems[n]);
      FilteredStep(AllSome(Present(systems[..n])), systems[..n], keep, systems[n]);
      assert systems == systems[..n] + [systems[n]];
    }
  }

  /** A policy given explicitly wins; Abort stands for none given. */
  function ResolvePolicy(supplied: Policy, configured: map<WorkGroupID, Policy>, id: WorkGroupID): Policy {
    if !supplied.Abort? then supplied else if id in configured then configured[id] else Abort
  }

  class WorkGroupState {
    const group: WorkGroup
    var lastRun: uint64

    constructor (group: WorkGroup)
      ensures this.group == group && lastRun == 0
    {
      this.group := group;
      lastRun := 0;
    }
  }

  type States = map<WorkGroupID, WorkGroupState>

  ghost function Objects(states: States): set<object> {
    set id | id in states :: states[id]
  }

  ghost function GroupsOf(states: States): map<WorkGroupID, WorkGroup> {
    map id | id in states :: states[id].group
  }

  ghost function LastRunsOf(states: States): map<WorkGroupID, uint64>
    reads Objects(states)
  {
    map id | id in states :: states[id].lastRun
  }

  /** `turns` are the states of the groups `ids` names, in order. */
  ghost predicate Match(turns: seq<WorkGroupState>, ids: seq<WorkGroupID>, states: States) {
    |turns| == |ids| && forall k :: 0 <= k < |ids| ==> ids[k] in states && turns[k] == states[ids[k]]
  }

  /** The turns in the configured order, then the remaining groups in registration order. */
  method RebuildOrder(states: States, syncOrder: seq<WorkGroupID>, registrationOrder: seq<WorkGroupID>)
    returns (ordered: seq<WorkGroupState>)
    requires NoDup(registrationOrder) && Elements(registrationOrder) == states.Keys
    ensures Match(ordered, TurnOrder(syncOrder, registrationOrder), states)
    ensures exists ids :: ConfiguredFirst(ids, syncOrder, registrationOrder) && Match(ordered, ids, states)
  {
    hide Registered, Remaining, NoDup, ConfiguredFirst;
    TurnOrderIsExact(syncOrder, registrationOrder);
    ordered := [];
    var seen := {};
    ghost var ids := [];
    NoTurns(syncOrder, registrationOrder, states.Keys);
    var i := 0;
    while i < |syncOrder|
      invariant 0 <= i <= |syncOrder|
      invariant ids == Registered(syncOrder[..i], states.Keys) && Match(ordered, ids, states)
      invariant forall id :: id in seen <==> id in states && id in syncOrder[..i]
    {
      var id := syncOrder[i];
      RegisteredStep(syncOrder, states.Keys, i);
      if id in states {
        ordered := ordered + [states[id]];
        ids := ids + [id];
        seen := seen + {id};
      }
      i := i + 1;
    }
    assert syncOrder[..i] == syncOrder;
    ordered := AppendRemaining(states, syncOrder, registrationOrder, ordered, seen, ids);
  }

  /** The second loop: the groups not seen yet, in registration order. */
  method AppendRemaining(states: States, syncOrder: seq<WorkGroupID>, registrationOrder: seq<WorkGroupID>,
                         first: seq<WorkGroupState>, seenFirst: set<WorkGroupID>, ghost firstIds: seq<WorkGroupID>)
    returns (ordered: seq<WorkGroupState>)
    requires NoDup(registrationOrder) && Elements(registrationOrder) == states.Keys
    requires Match(first, firstIds, states)
    requires forall id :: id in seenFirst <==> id in states && id in syncOrder
    ensures Match(ordered, firstIds + Remaining(registrationOrder, syncOrder), states)
  {
    hide Registered, Remaining, NoDup;
    ordered := first;
    var seen := seenFirst;
    ghost var ids := firstIds;
    NoTurns(syncOrder, registrationOrder, states.Keys);
    assert firstIds + [] == firstIds;
    var i := 0;
    while i < |registrationOrder|
      invariant 0 <= i <= |registrationOrder|
      invariant ids == firstIds + Remaining(registrationOrder[..i], syncOrder) && Match(ordered, ids, states)
      invariant forall id :: id in seen <==> id in states && (id in syncOrder || id in registrationOrder[..i])
    {
      var id := registrationOrder[i];
      assert id in Elements(registrationOrder);
      RemainingStep(registrationOrder, syncOrder, i);
      if id !in seen {
        if id in states {
          ordered := ordered + [states[id]];
          ids := ids + [id];
          seen := seen + {id};
        }
      }
      i := i + 1;
    }
    assert registrationOrder[..i] == registrationOrder;
  }

  lemma NoTurns(order: seq<WorkGroupID>, registration: seq<WorkGroupID>, known: set<WorkGroupID>)
    ensures Registered(order[..0], known) == [] && Remaining(registration[..0], order) == []
  {
  }

  method PresentSystems(list: seq<Option<System>>) returns (systems: seq<System>)
    ensures systems == Present(list)
  {
    systems := [];
    var i := 0;
    while i < |list|
      invariant 0 <= i <= |list| && systems == Present(list[..i])
    {
      assert list[..i + 1][..i] == list[..i];
      if list[i].Some? {
        systems := systems + [list[i].value];
      }
      i := i + 1;
    }
    assert list[..i] == list;
  }

  /** What registration maintains. */
  datatype Book = Book(states: States,
                       registrationOrder: seq<WorkGroupID>,
                       ordered: seq<WorkGroupState>,
                       syncOrder: seq<WorkGroupID>,
                       index: Index)

  /** The registered groups are pairwise compatible, the index is exact and the order is current. */
  ghost predicate Admitted(b: Book) {
    && (forall id :: id in b.states ==> b.states[id].group.id == id && Validated(b.states[id].group))
    && NoDup(b.registrationOrder) && Elements(b.registrationOrder) == b.states.Keys
    && Match(b.ordered, TurnOrder(b.syncOrder, b.registrationOrder), b.states)
    && PairwiseCompatible(GroupsOf(b.states)) && AsyncOnlyRead(GroupsOf(b.states))
    && Indexes(b.index, GroupsOf(b.states))
  }

  ghost predicate CompatibleWithAll(b: Book, access: Access) {
    forall id :: id in b.states ==> Compatible(b.states[id].group.access, access)
  }

  /** `after` has one more group, registered last; nothing else about the groups changed. */
  ghost predicate Added(before: Book, g: WorkGroup, after: Book) {
    && after.states.Keys == before.states.Keys + {g.id}
    && (forall id :: id in before.states ==> id in after.states && after.states[id] == before.states[id])
    && after.states[g.id].group == g
    && after.registrationOrder == before.registrationOrder + [g.id]
    && after.syncOrder == before.syncOrder
  }

  /** Enters a validated group unless it conflicts with a registered one. */
  method Admit(b: Book, g: WorkGroup) returns (err: Option<RegistrationError>, b': Book)
    requires Admitted(b) && g.id !in b.states && Validated(g) && (g.mode.Async? ==> ReadsOnly(g.access))
    ensures Admitted(b')
    ensures err.None? <==> CompatibleWithAll(b, g.access)
    ensures err.Some? ==> b' == b && ConflictShown(b.index, g.access, err.value)
    ensures err.None? ==> Added(b, g, b') && fresh(b'.states[g.id]) && b'.states[g.id].lastRun == 0
  {
    b' := b;
    ghost var groups := GroupsOf(b.states);
    AdmissionCheck(b, g);
    hide *;
    err := CheckCrossGroupConflicts(b.index, g.id, g.access);
    if err.Some? {
      return;
    }
    var state := new WorkGroupState(g);
    var states := b.states[g.id := state];
    var registrationOrder := b.registrationOrder + [g.id];
    var index := RecordAccess(b.index, g.id, g.access);
    AdmissionInstalls(b, g, state, index);
    var ordered := RebuildOrder(states, b.syncOrder, registrationOrder);
    b' := Book(states, registrationOrder, ordered, b.syncOrder, index);
    BookIsAdmitted(b, g, b');
  }

  lemma AdmissionCheck(b: Book, g: WorkGroup)
    requires Admitted(b) && g.id !in b.states
    ensures Clashes(b.index, g.id, g.access) <==> !CompatibleWithAll(b, g.access)
  {
    var groups := GroupsOf(b.states);
    ClashesIffIncompatible(b.index, groups, g.id, g.access);
    hide Clashes, Indexes, PairwiseCompatible, Match, Compatible;
    if !CompatibleWithAll(b, g.access) {
      var id :| id in b.states && !Compatible(b.states[id].group.access, g.access);
      assert id in groups && !Compatible(groups[id].access, g.access);
    }
  }

  lemma AdmissionInstalls(b: Book, g: WorkGroup, state: WorkGroupState, index: Index)
    requires Admitted(b) && g.id !in b.states && !Clashes(b.index, g.id, g.access) && state.group == g
    requires g.mode.Async? ==> ReadsOnly(g.access)
    requires index.componentOwners == b.index.componentOwners + map c | c in g.access.componentWrites :: g.id
    requires index.resourceOwners == b.index.resourceOwners + map n | n in g.access.resourceWrites :: g.id
    requires Entered(b.index.resourceReaders, index.resourceReaders, g.id, g.access.resourceReads)
    ensures var states := b.states[g.id := state];
      && NoDup(b.registrationOrder + [g.id]) && Elements(b.registrationOrder + [g.id]) == states.Keys
      && PairwiseCompatible(GroupsOf(states)) && Indexes(index, GroupsOf(states)) && AsyncOnlyRead(GroupsOf(states))
  {
    hide Match, Indexes, PairwiseCompatible, Clashes, ReadsOnly, NoDup, Elements, Validated, TurnOrder;
    AppendDistinct(b.registrationOrder, g.id);
    assert GroupsOf(b.states[g.id := state]) == GroupsOf(b.states)[g.id := g];
    AdmissionKeepsInvariant(b.index, GroupsOf(b.states), g, index);
  }

  lemma BookIsAdmitted(b: Book, g: WorkGroup, b': Book)
    requires Admitted(b) && g.id !in b.states && Validated(g)
    requires g.id in b'.states && b'.states[g.id].group == g && b'.states == b.states[g.id := b'.states[g.id]]
    requires b'.registrationOrder == b.registrationOrder + [g.id] && b'.syncOrder == b.syncOrder
    requires NoDup(b'.registrationOrder) && Elements(b'.registrationOrder) == b'.states.Keys
    requires Match(b'.ordered, TurnOrder(b'.syncOrder, b'.registrationOrder), b'.states)
    requires PairwiseCompatible(GroupsOf(b'.states)) && Indexes(b'.index, GroupsOf(b'.states))
    requires AsyncOnlyRead(GroupsOf(b'.states))
    ensures Admitted(b') && Added(b, g, b')
  {
    hide Match, Indexes, PairwiseCompatible, AsyncOnlyRead, NoDup, TurnOrder, Validated;
  }


  /** The ids of the groups that have the turns. */
  function IDsOf(turns: seq<WorkGroupState>): seq<WorkGroupID> {
    seq(|turns|, k requires 0 <= k < |turns| => turns[k].group.id)
  }

  /**
   * The turns of a scheduler's groups: first those that the configured order names, in its order
   * and as often as it names them, then the others in the order of their registration.
   */
  lemma TurnsAreInOrder(b: Book)
    requires Admitted(b)
    ensures ConfiguredFirst(IDsOf(b.ordered), b.syncOrder, b.registrationOrder)
    ensures forall state :: state in b.ordered ==> state.group.id in b.states && b.states[state.group.id] == state
  {
    TurnOrderIsExact(b.syncOrder, b.registrationOrder);
    assert IDsOf(b.ordered) == TurnOrder(b.syncOrder, b.registrationOrder);
    hide TurnOrder, ConfiguredFirst, PairwiseCompatible, Indexes, AsyncOnlyRead;
  }

  /**
   * What admission is for: no two systems of different registered groups write one component, and
   * none of them writes a named resource that the other accesses.
   */
  lemma AdmittedGroupsDoNotClash(b: Book, id: WorkGroupID, other: WorkGroupID, sys: System, sys': System)
    requires Admitted(b) && id in b.states && other in b.states && id != other
    requires sys in b.states[id].group.systems && sys' in b.states[other].group.systems
    ensures NoClash(sys.desc, sys'.desc)
  {
    var groups := GroupsOf(b.states);
    assert groups[id] == b.states[id].group && groups[other] == b.states[other].group;
    assert Compatible(groups[id].access, groups[other].access);
    CompatibleMeans(groups[id].systems, groups[other].systems);
    hide NoClash, Declared, Admissible, TurnOrder, Match, Indexes, AsyncOnlyRead, NoDup;
  }

  class Scheduler {
    const world: World.World
    const pool: BufferPool
    var groupStates: States
    var registrationOrder: seq<WorkGroupID>
    var orderedGroups: seq<WorkGroupState>
    var syncOrder: seq<WorkGroupID>
    /** The number of workers, when there is a pool. */
    var asyncPool: Option<nat>
    var asyncWorkers: nat
    var errorPolicies: map<WorkGroupID, Policy>
    var tickIndex: uint64
    var componentOwners: map<ComponentType, WorkGroupID>
    var resourceOwners: map<string, WorkGroupID>
    var resourceReaders: map<string, set<WorkGroupID>>
    /** The summaries handed to the observer so far. */
    var published: seq<Summary>

    function Registry(): Book
      reads this
    {
      Book(groupStates, registrationOrder, orderedGroups, syncOrder,
           Index(componentOwners, resourceOwners, resourceReaders))
    }

    ghost function LastRuns(): map<WorkGroupID, uint64>
      reads this, Objects(groupStates)
    {
      LastRunsOf(groupStates)
    }

    constructor (world: World.World)
      ensures Admitted(Registry()) && this.world == world && groupStates == map[] && tickIndex == 0
      ensures asyncPool == None && fresh(pool) && pool.Valid() && published == []
    {
      this.world := world;
      pool := new BufferPool();
      groupStates, registrationOrder, orderedGroups, syncOrder := map[], [], [], [];
      asyncPool, asyncWorkers, errorPolicies, tickIndex := None, 0, map[], 0;
      componentOwners, resourceOwners, resourceReaders := map[], map[], map[];
      published := [];
      new;
      EmptyIsAdmitted();
      hide Admitted;
    }

    method WithSyncOrder(order: seq<WorkGroupID>)
      requires Admitted(Registry())
      modifies this`syncOrder, this`orderedGroups
      ensures Admitted(Registry()) && syncOrder == order
      ensures ConfiguredFirst(IDsOf(orderedGroups), order, registrationOrder)
    {
      syncOrder := order;
      orderedGroups := RebuildOrder(groupStates, syncOrder, registrationOrder);
      TurnsAreInOrder(Registry());
      hide ConfiguredFirst, IDsOf, TurnOrder;
    }

    /** Rejected registrations change nothing but, for an async group, the worker pool. */
    method RegisterWorkGroup(cfg: Config, numCPU: nat) returns (err: Option<RegistrationError>)
      requires Admitted(Registry())
      modifies this
      ensures Admitted(Registry())
      ensures var systems := Present(cfg.systems);
        err.None? <==>
          && cfg.id != ""
          && cfg.id !in old(groupStates)
          && Admissible(cfg.mode, systems)
          && CompatibleWithAll(old(Registry()), Declared(systems))
      ensures err.Some? ==> Registry() == old(Registry())
      ensures err.None? ==>
        var systems := Present(cfg.systems);
        && Added(old(Registry()),
                 WorkGroup(cfg.id, cfg.mode, systems, cfg.interval,
                           if cfg.policy != Abort then cfg.policy
                           else if cfg.id in errorPolicies then errorPolicies[cfg.id] else Abort,
                           Declared(systems)),
                 Registry())
        && fresh(groupStates[cfg.id]) && groupStates[cfg.id].lastRun == 0
      ensures unchanged(this`tickIndex) && unchanged(this`errorPolicies) && unchanged(this`published)
      ensures cfg.id == "" ==> err == Some(EmptyID)
      ensures cfg.id != "" && cfg.id in old(groupStates) ==> err == Some(RegistrationError.AlreadyRegistered(cfg.id))
      ensures err.Some? && cfg.id != "" && cfg.id !in old(groupStates) ==>
        var systems := Present(cfg.systems);
        if Admissible(cfg.mode, systems) then ConflictShown(old(Registry()).index, Declared(systems), err.value)
        else Justified(cfg.mode, systems, err.value)
      ensures var makesPool := cfg.id != "" && cfg.id !in old(groupStates) && cfg.mode.Async? && old(asyncPool) == None;
        && asyncPool == (if makesPool then Some(asyncWorkers) else old(asyncPool))
        && asyncWorkers == (if makesPool && old(asyncWorkers) == 0 then if numCPU > 0 then numCPU else 1
                            else old(asyncWorkers))
    {
      hide Admitted, Admissible, Declared, CompatibleWithAll, Added, Present, ReadsOnly, ConflictShown, Justified;
      if cfg.id == "" {
        return Some(EmptyID);
      }
      if cfg.id in groupStates {
        return Some(RegistrationError.AlreadyRegistered(cfg.id));
      }
      if cfg.mode == Async && asyncPool == None {
        if asyncWorkers <= 0 {
          asyncWorkers := if numCPU > 0 then numCPU else 1;
        }
        asyncPool := Some(asyncWorkers);
      }
      var systems := PresentSystems(cfg.systems);
      var validated := ValidateSystemsAccess(cfg.mode, systems);
      if validated.Err? {
        return Some(validated.error);
      }
      var g := WorkGroup(cfg.id, cfg.mode, systems, cfg.interval,
                         ResolvePolicy(cfg.policy, errorPolicies, cfg.id), validated.value);
      if cfg.mode == Async {
        AsyncDeclaresNoWrites(systems);
      }
      var book: Book;
      err, book := Admit(Registry(), g);
      Install(book);
      if err.None? {
        AddedState(old(Registry()), g, book);
      }
    }

    /** What a tick starts from. */
    ghost function StartState(): Start
      requires world.Valid()
      reads this, world, world.Repr(), Objects(groupStates)
    {
      Start(GroupsIn(orderedGroups), tickIndex, world.State(), LastRuns())
    }

    /**
     * Tick number `i` of a run. Without workers async groups run in place; with workers `waits`
     * gives what waiting on their handles answers. Only a tick without an error advances the
     * index and marks the groups that ran.
     */
    method Tick(ctx: Context, oracle: Oracle, waits: Waits, i: nat) returns (err: Option<TickError>, ghost out: Outcome)
      requires Admitted(Registry()) && world.Valid() && pool.Valid()
      modifies this`tickIndex, this`published, Objects(groupStates)
      modifies PoolScratch(ctx, pool), world.Repr()
      ensures Registry() == old(Registry()) && asyncPool == old(asyncPool) && world.Valid() && pool.Valid()
      ensures PoolKept(pool) && world.Repr() == old(world.Repr()) && (old(world.Damaged()) ==> world.Damaged())
      ensures ctx.checks == ChecksAfter(old(StartState()), oracle, asyncPool.None?, ctx.Polls(), old(ctx.checks))
      ensures !world.Damaged() ==>
        && out == TickWith(old(StartState()), oracle, asyncPool.None?, waits, i, ctx.Polls(), old(ctx.checks))
        && err == out.err && StartState() == Following(old(StartState()), out)
        && published == old(published) + out.published
      ensures err.None? ==> tickIndex == (old(tickIndex) + 1) % TWO_64
      ensures err.Some? ==> tickIndex == old(tickIndex) && LastRuns() == old(LastRuns())
    {
      hide Admitted, World.World.Valid, World.World.Damaged, World.World.State, TickWith, ChecksAfter, MarkRun,
           LastRunsOf, BufferPool.Valid;
      SelfOutside(world, this);
      ghost var s := StartState();
      var groups := Snapshot(orderedGroups);
      var tick := tickIndex;
      var executed, summaries;
      executed, summaries, err, out := RunTickOn(ctx, groups, tick, oracle, waits, i, s);
      published := published + summaries;
      if err.None? {
        CommitTick(executed, tick);
      }
      if !world.Damaged() {
        FollowingState(s, out);
      }
    }

    /** The tick up to its commit leaves the scheduler itself as it was. */
    method RunTickOn(ctx: Context, groups: seq<WorkGroup>, tick: uint64, oracle: Oracle, waits: Waits, i: nat,
                     ghost s: Start)
      returns (executed: seq<WorkGroupID>, summaries: seq<Summary>, err: Option<TickError>, ghost out: Outcome)
      requires pool.Valid() && world.Valid()
      requires s.groups == groups && s.tick == tick && s.world == world.State()
      modifies PoolScratch(ctx, pool), world.Repr()
      ensures unchanged(this) && Registry() == old(Registry()) && LastRuns() == old(LastRuns())
      ensures pool.Valid() && PoolKept(pool)
      ensures world.Valid() && world.Repr() == old(world.Repr()) && (old(world.Damaged()) ==> world.Damaged())
      ensures ctx.checks == ChecksAfter(s, oracle, asyncPool.None?, ctx.Polls(), old(ctx.checks))
      ensures !world.Damaged() ==>
        && out == TickWith(s, oracle, asyncPool.None?, waits, i, ctx.Polls(), old(ctx.checks))
        && err == out.err && world.State() == out.world && summaries == out.published
        && (err.None? ==> out.lastRun == MarkRun(s.lastRun, executed, tick) && out.tickIndex == (tick + 1) % TWO_64)
        && (err.Some? ==> out.lastRun == s.lastRun && out.tickIndex == tick)
    {
      hide World.World.Valid, World.World.Damaged, World.World.State, TickWith, ChecksAfter, MarkRun, LastRunsOf,
           BufferPool.Valid, PoolKept;
      StatesOutsideWorld(world, ctx, pool, groupStates, this);
      executed, summaries, err, out := RunTick(ctx, world, pool, groups, tick, oracle, asyncPool.None?, waits, i, s);
    }

    /** Marks the groups that ran and moves on to the next tick. */
    method CommitTick(executed: seq<WorkGroupID>, tick: uint64)
      requires Admitted(Registry()) && world.Valid() && pool.Valid()
      modifies this`tickIndex, Objects(groupStates)
      ensures Registry() == old(Registry()) && pool.Valid() && pool.idle == old(pool.idle)
      ensures world.Valid() && world.State() == old(world.State()) && world.Repr() == old(world.Repr())
      ensures world.Damaged() == old(world.Damaged())
      ensures tickIndex == (tick + 1) % TWO_64
      ensures LastRuns() == MarkRun(old(LastRuns()), executed, tick)
    {
      StatesDiffer();
      SelfOutside(world, this);
      hide Admitted, World.World.Valid, World.World.Damaged, World.World.State, MarkRun, LastRunsOf, BufferPool.Valid,
           Objects, Distinct, LastRuns;
      LastRunsAre();
      Mark(world, pool, groupStates, executed, tick);
      LastRunsAre();
      MoveTo((tick + 1) % TWO_64);
    }

    method MoveTo(next: uint64)
      requires world.Valid() && pool.Valid() && this !in world.Repr()
      modifies this`tickIndex
      ensures tickIndex == next && Registry() == old(Registry()) && LastRuns() == old(LastRuns())
      ensures pool.Valid() && world.Valid() && world.Repr() == old(world.Repr())
      ensures world.State() == old(world.State()) && world.Damaged() == old(world.Damaged())
    {
      hide World.World.Valid, World.World.Damaged, World.World.State, BufferPool.Valid;
      tickIndex := next;
    }

    lemma LastRunsAre()
      ensures LastRuns() == LastRunsOf(groupStates)
    {
    }

    lemma StatesDiffer()
      requires Admitted(Registry())
      ensures Distinct(groupStates)
    {
    }

    lemma FollowingState(s: Start, out: Outcome)
      requires world.Valid() && s.groups == GroupsIn(orderedGroups)
      requires tickIndex == out.tickIndex && world.State() == out.world && LastRuns() == out.lastRun
      ensures StartState() == Following(s, out)
    {
    }

    /** Ticks until one fails; the index counts the ticks that succeeded. */
    method Run(ctx: Context, steps: int, oracle: Oracle, waits: Waits)
      returns (err: Option<TickError>, ghost ran: nat, ghost outs: seq<Outcome>)
      requires Admitted(Registry()) && world.Valid() && pool.Valid()
      modifies this`tickIndex, this`published, Objects(groupStates)
      modifies PoolScratch(ctx, pool), world.Repr()
      ensures Registry() == old(Registry()) && asyncPool == old(asyncPool) && world.Valid() && pool.Valid()
      ensures err.None? ==> ran == if steps < 0 then 0 else steps
      ensures err.Some? ==> ran < steps
      ensures tickIndex == TickIn(old(tickIndex), ran)
      ensures !world.Damaged() ==>
        && outs == Ticks(old(StartState()), oracle, asyncPool.None?, waits, 0, ctx.Polls(), old(ctx.checks),
                         if steps < 0 then 0 else steps)
        && err == (if outs == [] then None else outs[|outs| - 1].err)
        && StartState() == (if outs == [] then old(StartState()) else Following(old(StartState()), outs[|outs| - 1]))
        && published == old(published) + AllPublished(outs)
    {
      hide Admitted, World.World.Valid, World.World.Damaged, World.World.State, TickWith, ChecksAfter, Ticks,
           BufferPool.Valid, LastRuns, StartState, TickIn, Following, OnCourse, AllPublished;
      err, ran, outs := None, 0, [];
      ghost var c := Course(StartState(), oracle, asyncPool.None?, waits, ctx.Polls(), ctx.checks,
                            if steps < 0 then 0 else steps);
      TickCounts(tickIndex, 0);
      CourseBegins(c);
      NonePublished();
      var i := 0;
      while i < steps
        invariant 0 <= i <= c.n && ran == i && err == None
        invariant Registry() == old(Registry()) && world.Valid() && pool.Valid()
        invariant PoolKept(pool) && world.Repr() == old(world.Repr()) && asyncPool == old(asyncPool)
        invariant old(world.Damaged()) ==> world.Damaged()
        invariant tickIndex == TickIn(old(tickIndex), ran)
        invariant !world.Damaged() ==> OnCourse(c, StartState(), ctx.checks, i, outs)
        invariant !world.Damaged() ==> published == old(published) + AllPublished(outs)
      {
        ghost var now, checks := StartState(), ctx.checks;
        ghost var out;
        err, out := Tick(ctx, oracle, waits, i);
        TickCounts(old(tickIndex), ran);
        if !world.Damaged() {
          CourseContinues(c, now, checks, i, outs);
          MorePublished(outs, out);
        }
        outs := outs + [out];
        if err.Some? {
          return;
        }
        i, ran := i + 1, ran + 1;
      }
      if !world.Damaged() {
        CourseEnds(c, StartState(), ctx.checks, outs);
      }
    }

    method Install(b: Book)
      modifies this`groupStates, this`registrationOrder, this`orderedGroups, this`syncOrder,
               this`componentOwners, this`resourceOwners, this`resourceReaders
      ensures Registry() == b
    {
      groupStates, registrationOrder, orderedGroups, syncOrder := b.states, b.registrationOrder, b.ordered, b.syncOrder;
      componentOwners, resourceOwners, resourceReaders :=
        b.index.componentOwners, b.index.resourceOwners, b.index.resourceReaders;
    }
  }

  /** The summaries published by successive ticks. */
  ghost function AllPublished(outs: seq<Outcome>): seq<Summary> {
    if outs == [] then [] else AllPublished(outs[..|outs| - 1]) + outs[|outs| - 1].published
  }

  lemma NonePublished()
    ensures AllPublished([]) == []
  {
  }

  lemma MorePublished(outs: seq<Outcome>, out: Outcome)
    ensures AllPublished(outs + [out]) == AllPublished(outs) + out.published
  {
    assert (outs + [out])[..|outs|] == outs;
  }

  /** What a series of ticks is given: its start, the systems, the context, the handles and how many to run. */
  datatype Course = Course(first: Start, oracle: Oracle, inline: bool, waits: Waits, polls: Polls, checks: nat, n: nat)

  ghost function Outcomes(c: Course): seq<Outcome> {
    Ticks(c.first, c.oracle, c.inline, c.waits, 0, c.polls, c.checks, c.n)
  }

  /** The first `i` ticks succeeded with the outcomes `outs`; the next starts at `now`. */
  ghost predicate OnCourse(c: Course, now: Start, checks: nat, i: nat, outs: seq<Outcome>) {
    && i <= c.n && |outs| == i
    && outs + Ticks(now, c.oracle, c.inline, c.waits, i, c.polls, checks, c.n - i) == Outcomes(c)
    && (i > 0 ==> outs[i - 1].err.None?)
    && now == if i == 0 then c.first else Following(c.first, outs[i - 1])
  }

  lemma CourseBegins(c: Course)
    ensures OnCourse(c, c.first, c.checks, 0, [])
  {
    hide Ticks;
  }

  lemma CourseContinues(c: Course, now: Start, checks: nat, i: nat, outs: seq<Outcome>)
    requires OnCourse(c, now, checks, i, outs) && i < c.n
    ensures var out := TickWith(now, c.oracle, c.inline, c.waits, i, c.polls, checks);
      && Following(now, out) == Following(c.first, out)
      && if out.err.None? then
           OnCourse(c, Following(now, out), ChecksAfter(now, c.oracle, c.inline, c.polls, checks), i + 1, outs + [out])
         else outs + [out] == Outcomes(c)
  {
    hide TickWith, ChecksAfter;
  }

  lemma CourseEnds(c: Course, now: Start, checks: nat, outs: seq<Outcome>)
    requires OnCourse(c, now, checks, c.n, outs)
    ensures outs == Outcomes(c)
    ensures outs == [] ==> now == c.first
    ensures outs != [] ==> outs[|outs| - 1].err.None? && now == Following(c.first, outs[|outs| - 1])
  {
  }

  lemma TickCounts(tick: uint64, n: nat)
    ensures TickIn(tick, 0) == tick
    ensures TickIn(tick, n + 1) == (TickIn(tick, n) + 1) % TWO_64
  {
  }

  ghost function GroupsIn(turns: seq<WorkGroupState>): seq<WorkGroup> {
    seq(|turns|, i requires 0 <= i < |turns| => turns[i].group)
  }

  /**
   * Two schedulers with the same registrations and any two configured orders run alike for `n`
   * uncancelled ticks, if every group succeeds and keeps its adds and removes to its declared writes.
   */
  lemma ConfiguredOrderDoesNotMatter(b1: Book, b2: Book, tick: uint64, world: WorldState, lastRun: map<WorkGroupID, uint64>,
                                     oracle: Oracle, waits: Waits, polls: Polls, c1: nat, c2: nat, n: nat)
    requires Admitted(b1) && Admitted(b2)
    requires GroupsOf(b2.states) == GroupsOf(b1.states) && b2.registrationOrder == b1.registrationOrder
    requires NoDup(b1.syncOrder) && NoDup(b2.syncOrder) && Uncancelled(polls, c1) && Uncancelled(polls, c2)
    requires KeepToTheirWrites(world, GroupsOf(b1.states), tick, n, oracle)
    ensures var s1 := Start(GroupsIn(b1.ordered), tick, world, lastRun);
      var s2 := Start(GroupsIn(b2.ordered), tick, world, lastRun);
      SameRuns(Ticks(s1, oracle, true, waits, 0, polls, c1, n), Ticks(s2, oracle, true, waits, 0, polls, c2, n), n)
  {
    var groups := GroupsOf(b1.states);
    TurnsAreLookup(b1);
    TurnsAreLookup(b2);
    assert forall id :: id in b1.registrationOrder <==> id in Elements(b1.registrationOrder);
    hide TurnOrder, KeepToTheirWrites, PairwiseCompatible, AsyncOnlyRead, Uncancelled, Ticks, SameRuns, Indexes, Match;
    SyncOrderDoesNotMatter(groups, b1.registrationOrder, b1.syncOrder, b2.syncOrder,
                           Start(GroupsIn(b1.ordered), tick, world, lastRun),
                           Start(GroupsIn(b2.ordered), tick, world, lastRun), oracle, waits, 0, polls, c1, c2, n);
  }

  lemma TurnsAreLookup(b: Book)
    requires Admitted(b)
    ensures var t := TurnOrder(b.syncOrder, b.registrationOrder);
      AllIn(t, GroupsOf(b.states)) && GroupsIn(b.ordered) == Lookup(GroupsOf(b.states), t)
  {
    hide TurnOrder, PairwiseCompatible, AsyncOnlyRead, Indexes;
  }

  method Snapshot(turns: seq<WorkGroupState>) returns (groups: seq<WorkGroup>)
    ensures groups == GroupsIn(turns)
  {
    groups := [];
    var i := 0;
    while i < |turns|
      invariant 0 <= i <= |turns| && groups == GroupsIn(turns)[..i]
    {
      groups := groups + [turns[i].group];
      i := i + 1;
    }
  }

  /** Marks the groups that ran; neither the world nor the buffers are involved. */
  method Mark(world: World.World, pool: BufferPool, states: States, executed: seq<WorkGroupID>, tick: uint64)
    requires Distinct(states) && world.Valid() && pool.Valid()
    modifies Objects(states)
    ensures pool.Valid() && pool.idle == old(pool.idle)
    ensures world.Valid() && world.State() == old(world.State()) && world.Repr() == old(world.Repr())
    ensures world.Damaged() == old(world.Damaged())
    ensures LastRunsOf(states) == MarkRun(old(LastRunsOf(states)), executed, tick)
  {
    hide World.World.Valid, World.World.Damaged, World.World.State, MarkRun, LastRunsOf, Objects, Distinct, BufferPool.Valid;
    StatesOutside(world, pool, states);
    MarkExecuted(states, executed, tick);
  }

  ghost predicate Distinct(states: States) {
    forall id, other :: id in states && other in states && id != other ==> states[id] != states[other]
  }

  /** Marks the groups that ran, under their ids. */
  method MarkExecuted(states: States, executed: seq<WorkGroupID>, tick: uint64)
    requires Distinct(states)
    modifies Objects(states)
    ensures LastRunsOf(states) == MarkRun(old(LastRunsOf(states)), executed, tick)
  {
    hide Distinct, LastRunsOf, MarkRun, Objects;
    MarkStep(LastRunsOf(states), [], tick);
    var i := 0;
    while i < |executed|
      invariant 0 <= i <= |executed|
      invariant LastRunsOf(states) == MarkRun(old(LastRunsOf(states)), executed[..i], tick)
    {
      MarkStep(old(LastRunsOf(states)), executed[..i + 1], tick);
      assert executed[..i + 1][..i] == executed[..i];
      MarkOne(states, executed[i], tick);
      i := i + 1;
    }
    assert executed[..i] == executed;
  }

  method MarkOne(states: States, id: WorkGroupID, tick: uint64)
    requires Distinct(states)
    modifies Objects(states)
    ensures LastRunsOf(states) == MarkRun(old(LastRunsOf(states)), [id], tick)
  {
    if id in states {
      states[id].lastRun := tick;
    }
  }

  lemma MarkStep(lastRun: map<WorkGroupID, uint64>, ids: seq<WorkGroupID>, tick: uint64)
    ensures ids == [] ==> MarkRun(lastRun, ids, tick) == lastRun
    ensures ids != [] ==>
      var n := |ids| - 1;
      MarkRun(lastRun, ids, tick) == MarkRun(MarkRun(lastRun, ids[..n], tick), [ids[n]], tick)
  {
    if ids != [] {
      var n := |ids| - 1;
      assert ids == ids[..n] + [ids[n]];
    }
  }

  lemma StatesOutsideWorld(world: World.World, ctx: Context, pool: BufferPool, states: States, s: Scheduler)
    ensures PoolScratch(ctx, pool) !! Objects(states) && Objects(states) !! world.Repr()
    ensures s !in world.Repr() && (s as object?) !in PoolScratch(ctx, pool)
  {
  }

  lemma StatesOutside(world: World.World, pool: BufferPool, states: States)
    ensures world in world.Repr() && Objects(states) !! world.Repr()
    ensures forall o: object :: o in Objects(states) ==> o != pool && o !in pool.idle
  {
  }

  lemma SelfOutside(world: World.World, s: Scheduler)
    ensures world in world.Repr() && s !in world.Repr()
  {
  }

  lemma EmptyIsAdmitted()
    ensures Admitted(Book(map[], [], [], [], Index(map[], map[], map[])))
  {
    assert GroupsOf(map[]) == map[];
    EmptyIndex();
    EmptyOrder();
    hide PairwiseCompatible, AsyncOnlyRead, Indexes, TurnOrder, NoDup, Elements;
  }

  lemma EmptyIndex()
    ensures PairwiseCompatible(map[]) && AsyncOnlyRead(map[]) && Indexes(Index(map[], map[], map[]), map[])
  {
  }

  lemma EmptyOrder()
    ensures NoDup<WorkGroupID>([]) && Elements<WorkGroupID>([]) == {} && TurnOrder([], []) == []
  {
  }

  lemma AddedState(before: Book, g: WorkGroup, after: Book)
    requires Added(before, g, after)
    ensures g.id in after.states
  {
  }

  lemma AppendDistinct(ids: seq<WorkGroupID>, id: WorkGroupID)
    requires NoDup(ids) && id !in Elements(ids)
    ensures NoDup(ids + [id]) && Elements(ids + [id]) == Elements(ids) + {id}
  {
    assert forall k :: 0 <= k < |ids| ==> ids[k] in Elements(ids);
  }
}
