/** The world object: an entity registry, the registered component stores and the callers' cells. */
module World {
  import opened Prelude
  import opened EntityRegistry
  import opened Stores
  import opened Commands
  import opened CommandEffects
  import DenseStore
  import SharedStore

  datatype StoreObject = DenseObject(dense: DenseStore.Store) | SharedObject(shared: SharedStore.Store) {
    function Obj(): object {
      match this
      case DenseObject(d) => d
      case SharedObject(s) => s
    }

    ghost predicate Valid()
      reads Obj()
    {
      match this
      case DenseObject(d) => d.Valid()
      case SharedObject(s) => s.Valid()
    }

    /** A shared store has stored a value under an id in use; nothing is claimed about it from then on. */
    ghost predicate Damaged()
      reads Obj()
    {
      SharedObject? && shared.Damaged()
    }

    /** Setting `value` for `id` would do so. */
    ghost predicate Overwrites(id: EntityID, value: Value)
      reads Obj()
    {
      SharedObject? && shared.Overwrites(id, value)
    }

    ghost function State(): StoreState
      reads Obj()
    {
      match this
      case DenseObject(d) => StoreState(Dense, d.View())
      case SharedObject(s) => StoreState(Shared, s.View())
    }

    method Set(id: EntityID, value: Value) returns (err: Option<StoreError>)
      requires Valid()
      modifies Obj()
      ensures Valid() && (old(Damaged()) ==> Damaged())
      ensures !old(Damaged()) ==> (Damaged() <==> old(Overwrites(id, value)))
      ensures State().strategy == old(State().strategy)
      ensures err == SetIn(State().strategy, old(State().contents), id, value).1
      ensures !Damaged() ==> State().contents == SetIn(State().strategy, old(State().contents), id, value).0
    {
      match this
      case DenseObject(d) => err := d.Set(id, value);
      case SharedObject(s) => err := s.Set(id, value);
    }

    method Remove(id: EntityID)
      requires Valid()
      modifies Obj()
      ensures Valid() && Damaged() == old(Damaged())
      ensures State().strategy == old(State().strategy)
      ensures !Damaged() ==> State().contents == old(State().contents) - {id}
    {
      match this {
        case DenseObject(d) => var _ := d.Remove(id);
        case SharedObject(s) => var _ := s.Remove(id);
      }
    }
  }

  method NewStore(strategy: Strategy) returns (store: StoreObject)
    ensures fresh(store.Obj()) && store.Valid() && !store.Damaged()
    ensures store.State() == StoreState(strategy, map[])
  {
    if strategy.Dense? {
      var d := new DenseStore.Store();
      store := DenseObject(d);
    } else {
      var s := new SharedStore.Store();
      store := SharedObject(s);
    }
  }

  datatype RegisterError = NilStorageStrategy | AlreadyRegistered

  class World {
    const registry: Registry
    var stores: map<ComponentType, StoreObject>
    var cells: map<Cell, EntityID>

    ghost function Repr(): set<object>
      reads this
    {
      {this, registry} + StoreObjects(stores)
    }

    ghost predicate Valid()
      reads this, Repr()
    {
      && registry.Valid()
      && Separate(stores)
      && forall t :: t in stores ==> stores[t].Valid()
    }

    ghost predicate Damaged()
      reads this, Repr()
    {
      exists t :: t in stores && stores[t].Damaged()
    }

    /** Applying `cmd` would store a value under an id in use. */
    ghost predicate Overwrites(cmd: Command)
      reads this, Repr()
    {
      && cmd.AddComponent? && !cmd.entity.IsZero() && cmd.component in stores
      && stores[cmd.component].Overwrites(cmd.entity, cmd.value)
    }

    ghost function State(): WorldState
      requires Valid()
      reads this, Repr()
    {
      WorldState(registry.Model(), map t | t in stores :: stores[t].State(), cells)
    }

    constructor ()
      ensures Valid() && fresh(Repr()) && State() == WorldState(EMPTY_SLOTS, map[], map[])
    {
      registry := new Registry();
      stores := map[];
      cells := map[];
    }

    method RegisterComponent(t: ComponentType, strategy: Option<Strategy>) returns (err: Option<RegisterError>)
      requires Valid()
      modifies this`stores
      ensures Valid() && fresh(Repr() - old(Repr()))
      ensures err == if strategy.None? then Some(NilStorageStrategy)
                     else if t in old(stores) then Some(AlreadyRegistered) else None
      ensures State() == if err.Some? then old(State())
                         else old(State()).(stores := old(State()).stores[t := StoreState(strategy.value, map[])])
    {
      hide StoreObject.Valid, StoreObject.State, StoreObject.Damaged;
      if strategy.None? {
        return Some(NilStorageStrategy);
      }
      var store := NewStore(strategy.value);
      if t in stores {
        StoresUnchanged();
        return Some(AlreadyRegistered);
      }
      stores := stores[t := store];
      StoreAdded(t, store);
      err := None;
    }

    twostate lemma StoreAdded(t: ComponentType, new store: StoreObject)
      requires old(Valid()) && t !in old(stores) && stores == old(stores)[t := store]
      requires fresh(store.Obj()) && store.Valid()
      requires unchanged(registry) && cells == old(cells)
      requires forall u :: u in old(stores) ==> unchanged(stores[u].Obj())
      ensures Valid() && Repr() <= old(Repr()) + {store.Obj()}
      ensures State() == old(State()).(stores := old(State()).stores[t := store.State()])
    {
      hide StoreObject.Valid, StoreObject.State, StoreObject.Damaged;
    }

    /** The store of a registered type, whose contents are those the world's state gives it. */
    method View(t: ComponentType) returns (store: Option<StoreObject>)
      requires Valid()
      ensures store.Some? <==> t in State().stores
      ensures store.Some? ==>
        && t in stores && store.value == stores[t]
        && store.value.Valid() && store.value.State() == State().stores[t]
    {
      store := if t in stores then Some(stores[t]) else None;
    }

    method ApplyCreate(target: Option<Cell>) returns (err: Option<WorldError>)
      requires Valid()
      modifies registry, this`cells
      ensures Valid() && stores == old(stores) && Damaged() == old(Damaged())
      ensures (State(), err) == ApplyOne(old(State()), CreateEntity(target))
    {
      var id := registry.Create();
      if target.Some? {
        cells := cells[target.value := id];
      }
      StoresUnchanged();
      err := None;
    }

    method ApplyDestroy(id: EntityID) returns (err: Option<WorldError>)
      requires Valid()
      modifies registry
      ensures Valid() && stores == old(stores) && Damaged() == old(Damaged())
      ensures (State(), err) == ApplyOne(old(State()), DestroyEntity(id))
    {
      if id.IsZero() {
        return Some(DestroyZero);
      }
      var ok := registry.Destroy(id);
      StoresUnchanged();
      err := if ok then None else Some(DestroyStale(id));
    }

    method ApplyAdd(id: EntityID, t: ComponentType, v: Value) returns (err: Option<WorldError>)
      requires Valid()
      modifies Repr()
      ensures Valid() && stores == old(stores) && Repr() == old(Repr())
      ensures Damaged() <==> old(Damaged()) || old(Overwrites(AddComponent(id, t, v)))
      ensures !Damaged() ==> (State(), err) == ApplyOne(old(State()), AddComponent(id, t, v))
    {
      hide StoreObject.Valid, StoreObject.State, StoreObject.Damaged, StoreObject.Overwrites;
      if id.IsZero() {
        return Some(AddToZero);
      }
      var store := View(t);
      if store.None? {
        return Some(NotRegistered(t));
      }
      var e := store.value.Set(id, v);
      StoreChanged(t);
      err := AsWorldError(e);
    }

    method ApplyRemove(id: EntityID, t: ComponentType) returns (err: Option<WorldError>)
      requires Valid()
      modifies Repr()
      ensures Valid() && stores == old(stores) && Repr() == old(Repr())
      ensures Damaged() == old(Damaged())
      ensures !Damaged() ==> (State(), err) == ApplyOne(old(State()), RemoveComponent(id, t))
    {
      hide StoreObject.Valid, StoreObject.State, StoreObject.Damaged;
      if id.IsZero() {
        return Some(RemoveFromZero);
      }
      var store := View(t);
      if store.None? {
        return Some(NotRegistered(t));
      }
      store.value.Remove(id);
      StoreChanged(t);
      err := None;
    }

    method ApplyCommand(cmd: Command) returns (err: Option<WorldError>)
      requires Valid()
      modifies Repr()
      ensures Valid() && stores == old(stores) && Repr() == old(Repr())
      ensures Damaged() <==> old(Damaged()) || old(Overwrites(cmd))
      ensures !Damaged() ==> (State(), err) == ApplyOne(old(State()), cmd)
      ensures !Damaged() ==> Does(old(State()), cmd, State(), err)
    {
      CommandIsExact(State(), cmd);
      hide ApplyOne, Damaged, Does;
      match cmd
      case NilCommand => err := None; SkipNil(State());
      case CreateEntity(target) => err := ApplyCreate(target);
      case DestroyEntity(id) => err := ApplyDestroy(id);
      case AddComponent(id, t, v) => err := ApplyAdd(id, t, v);
      case RemoveComponent(id, t) => err := ApplyRemove(id, t);
    }

    /** Applies the commands in order and stops at the first error. */
    method Apply(commands: seq<Command>) returns (err: Option<WorldError>, ghost done: nat)
      requires Valid()
      modifies Repr()
      ensures Valid() && stores == old(stores) && Repr() == old(Repr())
      ensures old(Damaged()) ==> Damaged()
      ensures !Damaged() ==> Applied(State(), done, err) == ApplyAll(old(State()), commands)
      ensures !Damaged() ==> exists ws ::
        Chain(commands, ws, err) && |ws| == done + 1 && ws[0] == old(State()) && ws[done] == State()
    {
      ghost var ws := ApplyIsChain(State(), commands);
      hide Chain;
      err, done := None, 0;
      var i := 0;
      while i < |commands|
        invariant 0 <= i <= |commands| && done == i && err == None
        invariant Valid() && stores == old(stores)
        invariant old(Damaged()) ==> Damaged()
        invariant !Damaged() ==> ApplyAll(old(State()), commands[..i]) == Applied(State(), i, None)
      {
        ghost var wrapped, before := Damaged(), State();
        err := ApplyCommand(commands[i]);
        if !Damaged() {
          FoldStep(old(State()), commands, i);
        }
        if err.Some? {
          return;
        }
        i, done := i + 1, done + 1;
      }
      assert commands[..i] == commands;
    }

    twostate lemma StoresUnchanged()
      requires old(Valid()) && stores == old(stores) && registry.Valid()
      requires forall t :: t in stores ==> unchanged(stores[t].Obj())
      ensures Valid() && Damaged() == old(Damaged())
      ensures State().stores == old(State()).stores
    {
    }

    /** Only the store of `t` changed: the rest of the world is as before. */
    twostate lemma StoreChanged(t: ComponentType)
      requires old(Valid()) && stores == old(stores) && t in stores && stores[t].Valid()
      requires old(stores[t].Damaged()) ==> stores[t].Damaged()
      requires unchanged(registry) && unchanged(this)
      requires forall u :: u in stores && u != t ==> unchanged(stores[u].Obj())
      ensures Valid()
      ensures Damaged() <==> old(Damaged()) || stores[t].Damaged()
      ensures State() == old(State()).(stores := old(State()).stores[t := stores[t].State()])
    {
      hide StoreObject.Valid, StoreObject.State, StoreObject.Damaged;
    }
  }

  lemma SkipNil(w: WorldState)
    ensures ApplyOne(w, NilCommand) == (w, None)
  {
  }

  ghost function StoreObjects(stores: map<ComponentType, StoreObject>): set<object> {
    set t | t in stores :: stores[t].Obj()
  }

  /** Different component types have different store objects. */
  ghost predicate Separate(stores: map<ComponentType, StoreObject>) {
    forall t, u :: t in stores && u in stores && t != u ==> stores[t].Obj() != stores[u].Obj()
  }

  /** One more command of a fold that has succeeded so far. */
  lemma FoldStep(w: WorldState, commands: seq<Command>, i: nat)
    requires i < |commands|
    requires ApplyAll(w, commands[..i]).err.None? && ApplyAll(w, commands[..i]).done == i
    ensures var mid := ApplyAll(w, commands[..i]).world;
      var (w', err) := ApplyOne(mid, commands[i]);
      && (err.None? ==> ApplyAll(w, commands[..i + 1]) == Applied(w', i + 1, None))
      && (err.Some? ==> ApplyAll(w, commands) == Applied(w', i, err))
  {
    var mid := ApplyAll(w, commands[..i]).world;
    ApplyConcat(w, commands[..i], [commands[i]]);
    assert commands[..i + 1] == commands[..i] + [commands[i]];
    ApplyConcat(w, commands[..i], commands[i..]);
    assert commands == commands[..i] + commands[i..];
    assert ApplyAll(mid, [commands[i]]).world == ApplyOne(mid, commands[i]).0;
  }
}
