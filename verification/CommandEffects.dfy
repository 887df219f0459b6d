/**
 * What each deferred command does to a world, by its outcome: which entries, identifiers and cells
 * change, that nothing else does, and with which error a command is refused.
 */
module CommandEffects {
  import opened Prelude
  import opened EntityRegistry
  import opened Stores
  import opened Commands

  /** The two maps agree on whether `k` is stored, and on its value. */
  predicate SameEntry(m: Contents, m': Contents, k: EntityID) {
    (k in m' <==> k in m) && (k in m ==> m'[k] == m[k])
  }

  /** Nothing but the contents of the store of `t` changed. */
  ghost predicate OnlyStoreOf(w: WorldState, t: ComponentType, w': WorldState) {
    && w'.registry == w.registry && w'.cells == w.cells
    && t in w.stores && w'.stores.Keys == w.stores.Keys
    && w'.stores[t].strategy == w.stores[t].strategy
    && forall u :: u in w.stores && u != t ==> w'.stores[u] == w.stores[u]
  }

  /** The entity is no longer stored, and every other entry is as before. */
  ghost predicate Removes(w: WorldState, id: EntityID, t: ComponentType, w': WorldState) {
    && OnlyStoreOf(w, t, w')
    && id !in w'.stores[t].contents
    && forall k :: k != id ==> SameEntry(w.stores[t].contents, w'.stores[t].contents, k)
  }

  predicate HeldByOther(m: Contents, id: EntityID, v: Value) {
    exists k :: k in m && k != id && DeepEqual(m[k], v)
  }

  /**
   * The entity has a deeply equal value: the one given, or in a shared store the copy that another
   * entity has. Every other entry is as before, but for the entities that share the
   * index in a dense store, which are gone.
   */
  ghost predicate Adds(w: WorldState, id: EntityID, t: ComponentType, v: Value, w': WorldState) {
    && OnlyStoreOf(w, t, w')
    && var strategy, m, m' := w.stores[t].strategy, w.stores[t].contents, w'.stores[t].contents;
       && id in m' && DeepEqual(m'[id], v)
       && (if strategy == Shared && HeldByOther(m, id, v) then exists k :: k in m && k != id && m[k] == m'[id]
           else m'[id] == v)
       && forall k :: k != id ==>
            if strategy == Dense && k.index == id.index then k !in m' else SameEntry(m, m', k)
  }

  /** With room for it, an identifier that was not alive now is, and no other issued one changes. */
  ghost predicate Issues(r: SlotTable, id: EntityID, r': SlotTable) {
    RepInv(r) && HasRoom(r) ==>
      && RepInv(r') && Odd(id.generation) && !IsAliveIn(r, id) && IsAliveIn(r', id)
      && forall e: EntityID :: e != id && Odd(e.generation) ==> (IsAliveIn(r', e) <==> IsAliveIn(r, e))
  }

  /** A new identifier, put in the target cell if there is one; no store changes. */
  ghost predicate Creates(w: WorldState, target: Option<Cell>, w': WorldState) {
    w'.stores == w.stores && exists id: EntityID ::
      && Issues(w.registry, id, w'.registry)
      && w'.cells == if target.Some? then w.cells[target.value := id] else w.cells
  }

  /** The identifier is dead, and no identifier with another index changes; nor does a store or a cell. */
  ghost predicate Destroys(w: WorldState, id: EntityID, w': WorldState) {
    && w'.stores == w.stores && w'.cells == w.cells
    && !IsAliveIn(w'.registry, id)
    && (forall e: EntityID :: e.index != id.index ==> (IsAliveIn(w'.registry, e) <==> IsAliveIn(w.registry, e)))
    && (RepInv(w.registry) && Odd(id.generation) ==> RepInv(w'.registry))
  }

  /** What a command does to the world `w`, and the error it returns. */
  ghost predicate Does(w: WorldState, cmd: Command, w': WorldState, err: Option<WorldError>) {
    match cmd
    case NilCommand => err == None && w' == w
    case CreateEntity(target) => err == None && Creates(w, target, w')
    case DestroyEntity(id) =>
      if id.IsZero() then err == Some(DestroyZero) && w' == w
      else if !IsAliveIn(w.registry, id) then err == Some(DestroyStale(id)) && w' == w
      else err == None && Destroys(w, id, w')
    case AddComponent(id, t, v) =>
      if id.IsZero() then err == Some(AddToZero) && w' == w
      else if t !in w.stores then err == Some(NotRegistered(t)) && w' == w
      else err == None && Adds(w, id, t, v, w')
    case RemoveComponent(id, t) =>
      if id.IsZero() then err == Some(RemoveFromZero) && w' == w
      else if t !in w.stores then err == Some(NotRegistered(t)) && w' == w
      else err == None && Removes(w, id, t, w')
  }

  lemma IssueIsExact(r: SlotTable)
    ensures Issues(r, CreateIn(r).1, CreateIn(r).0)
  {
    if RepInv(r) && HasRoom(r) {
      var (r', id) := CreateIn(r);
      CreateKeepsInvariant(r);
      CreatedIsAliveIffRoom(r);
      CreatedCounter(r);
      forall e: EntityID | e != id && Odd(e.generation)
        ensures IsAliveIn(r', e) <==> IsAliveIn(r, e)
      {
        if e.index == id.index {
          SlotWasFree(r, e);
        }
      }
    }
  }

  /** No identifier of odd generation is alive in the slot that a Create takes. */
  lemma SlotWasFree(r: SlotTable, e: EntityID)
    requires RepInv(r) && HasRoom(r) && e.index == CreateIn(r).1.index && Odd(e.generation)
    ensures !IsAliveIn(r, e)
  {
    if r.free != [] {
      assert r.free[|r.free| - 1] in r.free;
    }
  }

  lemma DestroyIsExact(w: WorldState, id: EntityID)
    requires IsAliveIn(w.registry, id)
    ensures Destroys(w, id, ApplyOne(w, DestroyEntity(id)).0)
  {
    var r := DestroyIn(w.registry, id).0;
    if RepInv(w.registry) {
      DestroyKeepsInvariantIff(w.registry, id);
    }
    assert r.generations[id.index] != id.generation;
    hide RepInv;
  }

  lemma AddIsExact(w: WorldState, id: EntityID, t: ComponentType, v: Value)
    requires !id.IsZero() && t in w.stores
    ensures Adds(w, id, t, v, ApplyOne(w, AddComponent(id, t, v)).0)
  {
    var m := w.stores[t].contents;
    if w.stores[t].strategy == Shared && HeldByOther(m, id, v) {
      var k :| k in m && k != id && DeepEqual(m[k], v);
      assert k in m - {id} && DeepEqual((m - {id})[k], v);
    }
  }

  /** Every command does what its outcome says. */
  lemma CommandIsExact(w: WorldState, cmd: Command)
    ensures Does(w, cmd, ApplyOne(w, cmd).0, ApplyOne(w, cmd).1)
  {
    match cmd
    case NilCommand =>
    case CreateEntity(_) => IssueIsExact(w.registry); hide Issues, CreateIn;
    case DestroyEntity(id) =>
      if IsAliveIn(w.registry, id) {
        DestroyIsExact(w, id);
        hide Destroys, IsAliveIn;
      }
    case AddComponent(id, t, v) =>
      if !id.IsZero() && t in w.stores {
        AddIsExact(w, id, t, v);
        hide Adds;
      }
    case RemoveComponent(_, _) =>
  }

  /**
   * What applying a list comes to, without recursion: `ws` are the worlds before each command that
   * took effect, and the list ends with its last command or with the error of the first that fails.
   */
  ghost predicate Chain(cmds: seq<Command>, ws: seq<WorldState>, err: Option<WorldError>) {
    && 0 < |ws| <= |cmds| + 1
    && (forall k :: 0 <= k < |ws| - 1 ==> Does(ws[k], cmds[k], ws[k + 1], None))
    && if err.Some? then |ws| <= |cmds| && Does(ws[|ws| - 1], cmds[|ws| - 1], ws[|ws| - 1], err)
       else |ws| == |cmds| + 1
  }

  lemma {:induction false} ApplyIsChain(w: WorldState, cmds: seq<Command>) returns (ws: seq<WorldState>)
    ensures var out := ApplyAll(w, cmds);
      |ws| == out.done + 1 && ws[0] == w && ws[out.done] == out.world && Chain(cmds, ws, out.err)
    decreases |cmds|
  {
    ws := [w];
    if cmds != [] {
      CommandIsExact(w, cmds[0]);
      var (w', err) := ApplyOne(w, cmds[0]);
      if err.Some? {
        FailureHasNoEffect(w, cmds[0]);
      } else {
        var rest := ApplyIsChain(w', cmds[1..]);
        ws := [w] + rest;
      }
    }
    hide Does, ApplyOne;
  }
}
