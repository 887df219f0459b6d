/** The dense strategy: one generation-tagged slot per entity index. */
module DenseStore {
  import opened Prelude
  import opened EntityRegistry
  import opened Stores

  datatype Slot = Slot(generation: uint32, value: Value, occupied: bool)

  const VACANT := Slot(0, Value(0, 0), false)

  function Occupied(slots: seq<Slot>): nat {
    if slots == [] then 0
    else Occupied(slots[..|slots| - 1]) + if slots[|slots| - 1].occupied then 1 else 0
  }

  ghost function ContentsOf(slots: seq<Slot>): Contents {
    map id: EntityID | id in IdsOf(slots) :: slots[id.index].value
  }

  ghost function IdsOf(slots: seq<Slot>): (ids: set<EntityID>)
    ensures forall id :: id in ids <==> Holds(slots, id)
  {
    set i: uint32 | i < |slots| && slots[i].occupied :: EntityID(i, slots[i].generation)
  }

  predicate Holds(slots: seq<Slot>, id: EntityID) {
    id.index < |slots| && slots[id.index].occupied && slots[id.index].generation == id.generation
  }

  /** The occupied slots in index order. */
  function EntriesOf(slots: seq<Slot>): (e: seq<Entry>)
    requires |slots| <= TWO_32
    ensures |e| == Occupied(slots)
  {
    if slots == [] then []
    else
      var n := |slots| - 1;
      EntriesOf(slots[..n]) +
      if slots[n].occupied then [(EntityID(n, slots[n].generation), slots[n].value)] else []
  }

  lemma EntriesAreInOrder(slots: seq<Slot>)
    requires |slots| <= TWO_32
    ensures var e := EntriesOf(slots);
      && (forall k :: 0 <= k < |e| ==> Holds(slots, e[k].0) && slots[e[k].0.index].value == e[k].1)
      && (forall j, k :: 0 <= j < k < |e| ==> e[j].0.index < e[k].0.index)
  {
    if slots != [] {
      EntriesAreInOrder(slots[..|slots| - 1]);
    }
  }

  lemma OccupiedIsSize(slots: seq<Slot>)
    requires |slots| <= TWO_32
    ensures Occupied(slots) == |IdsOf(slots)|
  {
    if slots != [] {
      var n := |slots| - 1;
      OccupiedIsSize(slots[..n]);
      var last := EntityID(n, slots[n].generation);
      LastSlot(slots, last);
      if slots[n].occupied {
        assert IdsOf(slots) == IdsOf(slots[..n]) + {last};
      } else {
        assert IdsOf(slots) == IdsOf(slots[..n]);
      }
    } else {
      assert forall id :: !Holds(slots, id);
      assert IdsOf(slots) == {};
    }
  }

  lemma LastSlot(slots: seq<Slot>, last: EntityID)
    requires 0 < |slots| <= TWO_32 && last == EntityID(|slots| - 1, slots[|slots| - 1].generation)
    ensures !Holds(slots[..|slots| - 1], last)
    ensures forall id :: Holds(slots, id) <==>
      Holds(slots[..|slots| - 1], id) || (id == last && slots[|slots| - 1].occupied)
  {
  }

  /** The listing and the counter both describe the contents. */
  lemma EntriesListContents(slots: seq<Slot>)
    requires |slots| <= TWO_32
    ensures Occupied(slots) == |ContentsOf(slots)|
    ensures Lists(EntriesOf(slots), ContentsOf(slots))
  {
    OccupiedIsSize(slots);
    assert ContentsOf(slots).Keys == IdsOf(slots);
    EntriesAreInOrder(slots);
  }

  class Store {
    var slots: seq<Slot>
    var count: int

    /** The counter is the number of occupied slots, and indexes stay within 32 bits. */
    ghost predicate Valid()
      reads this
    {
      |slots| <= TWO_32 && count == Occupied(slots)
    }

    ghost function View(): Contents
      reads this
    {
      ContentsOf(slots)
    }

    constructor ()
      ensures Valid() && View() == map[]
    {
      slots, count := [], 0;
    }

    method Len() returns (n: int)
      requires Valid()
      ensures n == |View()|
    {
      EntriesListContents(slots);
      n := count;
    }

    method Has(id: EntityID) returns (ok: bool)
      ensures ok <==> id in View()
    {
      var idx := id.index;
      if idx >= |slots| {
        return false;
      }
      var slot := slots[idx];
      ok := slot.occupied && slot.generation == id.generation;
    }

    method Get(id: EntityID) returns (v: Option<Value>)
      ensures v == if id in View() then Some(View()[id]) else None
    {
      var has := Has(id);
      if !has {
        return None;
      }
      v := Some(slots[id.index].value);
    }

    /** The visitor sees the entries in index order, up to the first it refuses. */
    method Iterate(fn: (EntityID, Value) -> bool) returns (visited: seq<Entry>)
      requires Valid()
      ensures visited == Visited(EntriesOf(slots), fn)
      ensures Lists(EntriesOf(slots), View())
    {
      EntriesListContents(slots);
      hide *;
      SeenStart(slots, fn);
      visited := [];
      var idx := 0;
      while idx < |slots|
        invariant idx <= |slots| && Seen(slots, idx, visited, fn)
      {
        var slot := slots[idx];
        SeenStep(slots, idx, visited, fn);
        if slot.occupied {
          var id := EntityID(idx, slot.generation);
          visited := visited + [(id, slot.value)];
          if !fn(id, slot.value) {
            return;
          }
        }
        idx := idx + 1;
      }
      SeenEnd(slots, visited, fn);
    }

    method Set(id: EntityID, value: Value) returns (err: Option<StoreError>)
      requires Valid()
      modifies this
      ensures Valid()
      ensures (View(), err) == SetIn(Dense, old(View()), id, value)
    {
      if id.IsZero() {
        return Some(ZeroEntity);
      }
      EnsureCapacity(id.index + 1);
      var slot := slots[id.index];
      OccupiedUpdate(slots, id.index, Slot(id.generation, value, true));
      SlotSet(slots, id, value);
      hide ContentsOf, Occupied, DenseSet;
      if !slot.occupied {
        count := count + 1;
      }
      slots := slots[id.index := Slot(id.generation, value, true)];
      err := None;
    }

    method Remove(id: EntityID) returns (ok: bool)
      requires Valid()
      modifies this
      ensures Valid()
      ensures ok <==> id in old(View())
      ensures View() == old(View()) - {id}
    {
      ok := Has(id);
      if !ok {
        return;
      }
      var slot := slots[id.index];
      OccupiedUpdate(slots, id.index, slot.(occupied := false, value := VACANT.value));
      slots := slots[id.index := slot.(occupied := false, value := VACANT.value)];
      count := count - 1;
    }

    method Clear()
      requires Valid()
      modifies this
      ensures Valid() && View() == map[]
      ensures |slots| == old(|slots|)
    {
      var i := 0;
      while i < |slots|
        invariant 0 <= i <= |slots| == old(|slots|)
        invariant forall k :: 0 <= k < i ==> slots[k] == VACANT
      {
        slots := slots[i := VACANT];
        i := i + 1;
      }
      count := 0;
      assert View() == map[];
      EntriesListContents(slots);
    }

    method EnsureCapacity(size: nat)
      requires Valid() && size <= TWO_32
      modifies this`slots
      ensures Valid() && |slots| >= size
      ensures View() == old(View())
    {
      if size <= |slots| {
        return;
      }
      var diff := size - |slots|;
      OccupiedPad(slots, diff);
      slots := slots + seq(diff, _ => VACANT);
      assert View() == old(View());
    }
  }

  /** The visitor has accepted every entry of the first `idx` slots. */
  ghost predicate Seen(slots: seq<Slot>, idx: nat, visited: seq<Entry>, fn: (EntityID, Value) -> bool) {
    && idx <= |slots| <= TWO_32
    && visited == EntriesOf(slots[..idx])
    && visited <= EntriesOf(slots)
    && (forall k :: 0 <= k < |visited| ==> fn(visited[k].0, visited[k].1))
  }

  lemma SeenStart(slots: seq<Slot>, fn: (EntityID, Value) -> bool)
    requires |slots| <= TWO_32
    ensures Seen(slots, 0, [], fn)
  {
  }

  lemma SeenStep(slots: seq<Slot>, idx: nat, visited: seq<Entry>, fn: (EntityID, Value) -> bool)
    requires Seen(slots, idx, visited, fn) && idx < |slots|
    ensures var e := (EntityID(idx, slots[idx].generation), slots[idx].value);
      && (!slots[idx].occupied ==> Seen(slots, idx + 1, visited, fn))
      && (slots[idx].occupied && fn(e.0, e.1) ==> Seen(slots, idx + 1, visited + [e], fn))
      && (slots[idx].occupied && !fn(e.0, e.1) ==> visited + [e] == Visited(EntriesOf(slots), fn))
  {
    EntriesStep(slots, idx);
    if slots[idx].occupied {
      var all := EntriesOf(slots);
      assert all[..|visited| + 1] == EntriesOf(slots[..idx + 1]);
      VisitedStep(all, fn, |visited|);
    }
  }

  lemma SeenEnd(slots: seq<Slot>, visited: seq<Entry>, fn: (EntityID, Value) -> bool)
    requires Seen(slots, |slots|, visited, fn)
    ensures visited == Visited(EntriesOf(slots), fn)
  {
    assert slots[..|slots|] == slots;
    if visited != [] {
      VisitedStep(visited, fn, |visited| - 1);
    }
  }

  lemma EntriesStep(slots: seq<Slot>, i: nat)
    requires i < |slots| <= TWO_32
    ensures EntriesOf(slots[..i + 1]) == EntriesOf(slots[..i])
      + if slots[i].occupied then [(EntityID(i, slots[i].generation), slots[i].value)] else []
    ensures EntriesOf(slots[..i + 1]) <= EntriesOf(slots)
  {
    EntriesPrefix(slots, i + 1);
    assert slots[..i + 1][..i] == slots[..i];
  }

  lemma {:induction false} EntriesPrefix(slots: seq<Slot>, i: nat)
    requires i <= |slots| <= TWO_32
    ensures EntriesOf(slots[..i]) <= EntriesOf(slots)
    decreases |slots|
  {
    if i == |slots| {
      assert slots[..i] == slots;
    } else {
      var n := |slots| - 1;
      EntriesPrefix(slots[..n], i);
      assert slots[..n][..i] == slots[..i];
      assert EntriesOf(slots[..n]) <= EntriesOf(slots);
    }
  }

  /** Writing a slot evicts whatever the index held. */
  lemma SlotSet(slots: seq<Slot>, id: EntityID, value: Value)
    requires id.index < |slots|
    ensures ContentsOf(slots[id.index := Slot(id.generation, value, true)]) == DenseSet(ContentsOf(slots), id, value)
  {
  }

  lemma OccupiedUpdate(slots: seq<Slot>, i: nat, s: Slot)
    requires i < |slots|
    ensures Occupied(slots[i := s]) + (if slots[i].occupied then 1 else 0)
         == Occupied(slots) + (if s.occupied then 1 else 0)
  {
    var n := |slots| - 1;
    if i < n {
      assert slots[i := s][..n] == slots[..n][i := s];
      OccupiedUpdate(slots[..n], i, s);
    } else {
      assert slots[i := s][..n] == slots[..n];
    }
  }

  lemma OccupiedPad(slots: seq<Slot>, diff: nat)
    ensures Occupied(slots + seq(diff, _ => VACANT)) == Occupied(slots)
  {
    if diff > 0 {
      OccupiedPad(slots, diff - 1);
      var padded := slots + seq(diff, _ => VACANT);
      assert padded[..|padded| - 1] == slots + seq(diff - 1, _ => VACANT);
    } else {
      assert slots + seq(diff, _ => VACANT) == slots;
    }
  }
}
