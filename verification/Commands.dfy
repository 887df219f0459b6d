/**
 * Deferred commands and their effect on a world: the meaning of one Apply, of the fold that stops
 * at the first error, and why blocks of commands with disjoint write sets commute.
 */
module Commands {
  import opened Prelude
  import opened EntityRegistry
  import opened Stores

  type ComponentType = string

  /** A memory cell of the caller, as the target of a create command. */
  type Cell = nat

  datatype Command =
    | NilCommand
    | CreateEntity(target: Option<Cell>)
    | DestroyEntity(entity: EntityID)
    | AddComponent(entity: EntityID, component: ComponentType, value: Value)
    | RemoveComponent(entity: EntityID, component: ComponentType)

  datatype WorldError =
    | DestroyZero
    | DestroyStale(id: EntityID)
    | AddToZero
    | RemoveFromZero
    | NotRegistered(component: ComponentType)
    | StoreFailed(error: StoreError)

  datatype StoreState = StoreState(strategy: Strategy, contents: Contents)

  datatype WorldState = WorldState(registry: SlotTable,
                                   stores: map<ComponentType, StoreState>,
                                   cells: map<Cell, EntityID>)

  function AsWorldError(err: Option<StoreError>): Option<WorldError> {
    if err.Some? then Some(StoreFailed(err.value)) else None
  }

  ghost function ApplyOne(w: WorldState, cmd: Command): (WorldState, Option<WorldError>) {
    match cmd
    case NilCommand => (w, None)
    case CreateEntity(target) =>
      var (r, id) := CreateIn(w.registry);
      (w.(registry := r, cells := if target.Some? then w.cells[target.value := id] else w.cells), None)
    case DestroyEntity(id) =>
      if id.IsZero() then (w, Some(DestroyZero))
      else
        var (r, ok) := DestroyIn(w.registry, id);
        if ok then (w.(registry := r), None) else (w, Some(DestroyStale(id)))
    case AddComponent(id, t, v) =>
      if id.IsZero() then (w, Some(AddToZero))
      else if t !in w.stores then (w, Some(NotRegistered(t)))
      else
        var (m, err) := SetIn(w.stores[t].strategy, w.stores[t].contents, id, v);
        (w.(stores := w.stores[t := w.stores[t].(contents := m)]),
         AsWorldError(err))
    case RemoveComponent(id, t) =>
      if id.IsZero() then (w, Some(RemoveFromZero))
      else if t !in w.stores then (w, Some(NotRegistered(t)))
      else (w.(stores := w.stores[t := w.stores[t].(contents := w.stores[t].contents - {id})]), None)
  }

  /** The world after a fold, how many commands took effect, and the error that stopped it. */
  datatype Applied = Applied(world: WorldState, done: nat, err: Option<WorldError>)

  ghost function ApplyAll(w: WorldState, cmds: seq<Command>): Applied
    decreases |cmds|
  {
    if cmds == [] then Applied(w, 0, None)
    else
      var (w', err) := ApplyOne(w, cmds[0]);
      if err.Some? then Applied(w', 0, err)
      else
        var rest := ApplyAll(w', cmds[1..]);
        rest.(done := rest.done + 1)
  }

  /** A command that fails changes nothing. */
  lemma FailureHasNoEffect(w: WorldState, cmd: Command)
    requires ApplyOne(w, cmd).1.Some?
    ensures ApplyOne(w, cmd).0 == w
  {
  }

  /** The fold over a concatenation continues only if the first part ran to its end. */
  lemma {:induction false} ApplyConcat(w: WorldState, a: seq<Command>, b: seq<Command>)
    ensures ApplyAll(w, a + b) ==
      var first := ApplyAll(w, a);
      if first.err.Some? then first
      else var second := ApplyAll(first.world, b); second.(done := first.done + second.done)
    decreases |a|
  {
    if a == [] {
      assert a + b == b;
    } else {
      assert (a + b)[1..] == a[1..] + b && (a + b)[0] == a[0];
      ApplyConcat(ApplyOne(w, a[0]).0, a[1..], b);
    }
  }

  /**
   * A fold applies exactly a prefix: the world it leaves is the world of the `done` commands
   * before the failing one, all of which succeed, and it stops early only at a failing command.
   */
  lemma {:induction false} FoldAppliesPrefix(w: WorldState, cmds: seq<Command>)
    ensures var out := ApplyAll(w, cmds);
      && out.done <= |cmds|
      && ApplyAll(w, cmds[..out.done]) == Applied(out.world, out.done, None)
      && (out.err.None? ==> out.done == |cmds|)
      && (out.err.Some? ==> out.done < |cmds| && ApplyOne(out.world, cmds[out.done]).1 == out.err)
    decreases |cmds|
  {
    if cmds != [] {
      var (w', err) := ApplyOne(w, cmds[0]);
      if err.Some? {
        FailureHasNoEffect(w, cmds[0]);
      } else {
        FoldAppliesPrefix(w', cmds[1..]);
        var out := ApplyAll(w, cmds);
        assert cmds[..out.done][1..] == cmds[1..][..out.done - 1];
      }
    }
  }

  // ---------------------------------------------------------------------------------------------
  // Conflict-free blocks commute.

  /** `cmd` adds or removes a component of a type in `writes`. */
  predicate Within(cmd: Command, writes: set<ComponentType>) {
    (cmd.AddComponent? || cmd.RemoveComponent?) && cmd.component in writes
  }

  /** Every command of the block stays within `writes` and would succeed on `w`. */
  ghost predicate Contained(w: WorldState, block: seq<Command>, writes: set<ComponentType>) {
    forall k :: 0 <= k < |block| ==> Within(block[k], writes) && ApplyOne(w, block[k]).1.None?
  }

  /** Worlds that agree on which component types are registered. */
  predicate SameTypes(a: WorldState, b: WorldState) {
    a.stores.Keys == b.stores.Keys
  }

  /** Whether an add or remove fails depends only on the registered types. */
  lemma OneStep(w: WorldState, cmd: Command, writes: set<ComponentType>)
    requires Within(cmd, writes) && ApplyOne(w, cmd).1.None?
    ensures var w' := ApplyOne(w, cmd).0;
      && SameTypes(w', w) && w'.registry == w.registry && w'.cells == w.cells
      && (forall t :: t in w.stores && t != cmd.component ==> w'.stores[t] == w.stores[t])
      && (forall c, ws :: Within(c, ws) ==> ApplyOne(w', c).1 == ApplyOne(w, c).1)
  {
  }

  /** A contained block succeeds and leaves everything outside its write set alone. */
  lemma {:induction false} BlockFrame(w: WorldState, block: seq<Command>, writes: set<ComponentType>)
    requires Contained(w, block, writes)
    ensures var out := ApplyAll(w, block);
      && out.err.None? && out.done == |block|
      && SameTypes(out.world, w)
      && out.world.registry == w.registry && out.world.cells == w.cells
      && (forall t :: t in w.stores && t !in writes ==> out.world.stores[t] == w.stores[t])
    decreases |block|
  {
    if block != [] {
      OneStep(w, block[0], writes);
      assert forall k :: 0 <= k < |block[1..]| ==> block[1..][k] == block[k + 1];
      BlockFrame(ApplyOne(w, block[0]).0, block[1..], writes);
    }
  }

  lemma ContainedElsewhere(w: WorldState, w': WorldState, block: seq<Command>, writes: set<ComponentType>)
    requires Contained(w, block, writes) && SameTypes(w, w')
    ensures Contained(w', block, writes)
  {
    forall k | 0 <= k < |block| ensures ApplyOne(w', block[k]).1.None? {
      assert Within(block[k], writes) && ApplyOne(w, block[k]).1.None?;
    }
  }

  /** What a block leaves in a store depends only on what was in that store. */
  lemma {:induction false} BlockIsLocal(a: WorldState, b: WorldState, block: seq<Command>,
                                        writes: set<ComponentType>, t: ComponentType)
    requires SameTypes(a, b) && t in a.stores && a.stores[t] == b.stores[t]
    requires Contained(a, block, writes)
    ensures Contained(b, block, writes)
    ensures SameTypes(ApplyAll(a, block).world, a) && SameTypes(ApplyAll(b, block).world, b)
    ensures ApplyAll(a, block).world.stores[t] == ApplyAll(b, block).world.stores[t]
    decreases |block|
  {
    ContainedElsewhere(a, b, block, writes);
    BlockFrame(a, block, writes);
    BlockFrame(b, block, writes);
    if block != [] {
      var a', b' := ApplyOne(a, block[0]).0, ApplyOne(b, block[0]).0;
      OneStep(a, block[0], writes);
      OneStep(b, block[0], writes);
      assert forall k :: 0 <= k < |block[1..]| ==> block[1..][k] == block[k + 1];
      BlockIsLocal(a', b', block[1..], writes, t);
    }
  }

  /** The commands of the blocks named by `order`, in that order. */
  function Arrange(blocks: seq<seq<Command>>, order: seq<nat>): seq<Command>
    requires forall k :: 0 <= k < |order| ==> order[k] < |blocks|
  {
    if order == [] then []
    else Arrange(blocks, order[..|order| - 1]) + blocks[order[|order| - 1]]
  }

  ghost predicate ConflictFree(w: WorldState, blocks: seq<seq<Command>>, sets: seq<set<ComponentType>>) {
    && |blocks| == |sets|
    && (forall i :: 0 <= i < |blocks| ==> Contained(w, blocks[i], sets[i]))
    && (forall i, j :: 0 <= i < j < |sets| ==> sets[i] !! sets[j])
  }

  /** The state of store `t` once the blocks in `order` have been applied to `w`. */
  ghost predicate Settled(w: WorldState, w': WorldState, blocks: seq<seq<Command>>,
                          sets: seq<set<ComponentType>>, order: seq<nat>, t: ComponentType)
    requires |blocks| == |sets| && forall k :: 0 <= k < |order| ==> order[k] < |blocks|
    requires SameTypes(w, w') && t in w.stores
  {
    && (forall k :: 0 <= k < |order| && t in sets[order[k]] ==>
          var alone := ApplyAll(w, blocks[order[k]]).world;
          t in alone.stores && w'.stores[t] == alone.stores[t])
    && ((forall k :: 0 <= k < |order| ==> t !in sets[order[k]]) ==> w'.stores[t] == w.stores[t])
  }

  /** Each store ends as if only the block that owns it had run. */
  lemma {:induction false} OrderEffect(w: WorldState, blocks: seq<seq<Command>>,
                                       sets: seq<set<ComponentType>>, order: seq<nat>)
    requires ConflictFree(w, blocks, sets)
    requires NoDup(order) && forall k :: 0 <= k < |order| ==> order[k] < |blocks|
    ensures var out := ApplyAll(w, Arrange(blocks, order));
      && out.err.None? && SameTypes(out.world, w)
      && out.world.registry == w.registry && out.world.cells == w.cells
      && forall t :: t in w.stores ==> Settled(w, out.world, blocks, sets, order, t)
  {
    if order != [] {
      var n := |order| - 1;
      var init, j := order[..n], order[n];
      OrderEffect(w, blocks, sets, init);
      var mid := ApplyAll(w, Arrange(blocks, init)).world;
      ApplyConcat(w, Arrange(blocks, init), blocks[j]);
      ContainedElsewhere(w, mid, blocks[j], sets[j]);
      hide ApplyOne, Contained, Settled;
      BlockFrame(mid, blocks[j], sets[j]);
      var end := ApplyAll(mid, blocks[j]).world;
      forall t | t in w.stores
        ensures Settled(w, end, blocks, sets, order, t)
      {
        LastBlock(w, mid, blocks, sets, order, t);
      }
    }
  }

  lemma LastBlock(w: WorldState, mid: WorldState, blocks: seq<seq<Command>>,
                  sets: seq<set<ComponentType>>, order: seq<nat>, t: ComponentType)
    requires ConflictFree(w, blocks, sets) && order != []
    requires NoDup(order) && forall k :: 0 <= k < |order| ==> order[k] < |blocks|
    requires SameTypes(w, mid) && t in w.stores
    requires Settled(w, mid, blocks, sets, order[..|order| - 1], t)
    requires Contained(mid, blocks[order[|order| - 1]], sets[order[|order| - 1]])
    ensures SameTypes(w, ApplyAll(mid, blocks[order[|order| - 1]]).world)
    ensures Settled(w, ApplyAll(mid, blocks[order[|order| - 1]]).world, blocks, sets, order, t)
  {
    var n := |order| - 1;
    var j := order[n];
    BlockFrame(mid, blocks[j], sets[j]);
    assert forall k :: 0 <= k < n ==> order[..n][k] == order[k];
    if t in sets[j] {
      assert forall k :: 0 <= k < n ==> t !in sets[order[k]];
      BlockIsLocal(mid, w, blocks[j], sets[j], t);
    }
  }

  ghost predicate IsPermutation(order: seq<nat>, n: nat) {
    NoDup(order) && (forall k: nat :: k in order <==> k < n)
  }

  /** Applying conflict-free blocks in any two orders leaves the same world. */
  lemma ConflictFreeBlocksCommute(w: WorldState, blocks: seq<seq<Command>>, sets: seq<set<ComponentType>>,
                                  order1: seq<nat>, order2: seq<nat>)
    requires ConflictFree(w, blocks, sets)
    requires IsPermutation(order1, |blocks|) && IsPermutation(order2, |blocks|)
    ensures (forall k :: 0 <= k < |order1| ==> order1[k] < |blocks|)
    ensures (forall k :: 0 <= k < |order2| ==> order2[k] < |blocks|)
    ensures var out1, out2 := ApplyAll(w, Arrange(blocks, order1)), ApplyAll(w, Arrange(blocks, order2));
      out1.err.None? && out2.err.None? && out1.world == out2.world
  {
    assert forall k :: 0 <= k < |order1| ==> order1[k] in order1;
    assert forall k :: 0 <= k < |order2| ==> order2[k] in order2;
    OrderEffect(w, blocks, sets, order1);
    OrderEffect(w, blocks, sets, order2);
    var w1, w2 := ApplyAll(w, Arrange(blocks, order1)).world, ApplyAll(w, Arrange(blocks, order2)).world;
    forall t | t in w.stores ensures w1.stores[t] == w2.stores[t] {
      SameSettlement(w, w1, w2, blocks, sets, order1, order2, t);
    }
  }

  lemma SameSettlement(w: WorldState, w1: WorldState, w2: WorldState, blocks: seq<seq<Command>>,
                       sets: seq<set<ComponentType>>, order1: seq<nat>, order2: seq<nat>, t: ComponentType)
    requires |blocks| == |sets|
    requires IsPermutation(order1, |blocks|) && IsPermutation(order2, |blocks|)
    requires forall k :: 0 <= k < |order1| ==> order1[k] < |blocks|
    requires forall k :: 0 <= k < |order2| ==> order2[k] < |blocks|
    requires SameTypes(w, w1) && SameTypes(w, w2) && t in w.stores
    requires Settled(w, w1, blocks, sets, order1, t) && Settled(w, w2, blocks, sets, order2, t)
    ensures w1.stores[t] == w2.stores[t]
  {
    if k :| 0 <= k < |order1| && t in sets[order1[k]] {
      assert order1[k] in order1 && order1[k] in order2;
      var k2 :| 0 <= k2 < |order2| && order2[k2] == order1[k];
    } else {
      forall k | 0 <= k < |order2| ensures t !in sets[order2[k]] {
        assert order2[k] in order2 && order2[k] in order1;
      }
    }
  }
}
