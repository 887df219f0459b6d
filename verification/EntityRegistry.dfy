/**
 * The entity registry: a slot allocator with a free list and one generation counter per slot.
 * Counters are 32 bits wide and wrap; the live count wraps too.
 */
module EntityRegistry {
  import opened Prelude

  datatype EntityID = EntityID(index: uint32, generation: uint32) {
    predicate IsZero() { index == 0 && generation == 0 }
  }

  /** The value held by a registry object. */
  datatype Slots = Slots(generations: seq<uint32>, free: seq<uint32>, alive: uint32)

  const EMPTY_SLOTS := Slots([], [], 0)

  function Inc32(x: uint32): uint32 { (x + 1) % TWO_32 }

  function Dec32(x: uint32): uint32 { if x == 0 then TWO_32 - 1 else x - 1 }

  /** Every free index names an existing slot, which is what indexing the counters needs. */
  predicate InBounds(r: Slots) {
    forall k :: 0 <= k < |r.free| ==> r.free[k] < |r.generations|
  }

  type SlotTable = r: Slots | InBounds(r) witness EMPTY_SLOTS

  function CreateIn(r: SlotTable): (SlotTable, EntityID) {
    var n := |r.free|;
    var index: uint32 := if n > 0 then r.free[n - 1] else |r.generations| % TWO_32;
    var free := if n > 0 then r.free[..n - 1] else r.free;
    var grown := if n > 0 then r.generations else r.generations + [0];
    var generation := Inc32(grown[index]);
    (Slots(grown[index := generation], free, Inc32(r.alive)), EntityID(index, generation))
  }

  predicate IsAliveIn(r: Slots, id: EntityID) {
    && !id.IsZero()
    && id.index < |r.generations| % TWO_32
    && r.generations[id.index] == id.generation
  }

  function DestroyIn(r: SlotTable, id: EntityID): (SlotTable, bool) {
    if !IsAliveIn(r, id) then (r, false)
    else
      (Slots(r.generations[id.index := Inc32(r.generations[id.index])], r.free + [id.index], Dec32(r.alive)), true)
  }

  class Registry {
    var generations: seq<uint32>
    var free: seq<uint32>
    var alive: uint32

    ghost predicate Valid()
      reads this
    {
      InBounds(Slots(generations, free, alive))
    }

    ghost function Model(): SlotTable
      requires Valid()
      reads this
    {
      Slots(generations, free, alive)
    }

    constructor ()
      ensures Valid() && Model() == EMPTY_SLOTS
    {
      generations, free, alive := [], [], 0;
    }

    method Create() returns (id: EntityID)
      requires Valid()
      modifies this
      ensures Valid() && (Model(), id) == CreateIn(old(Model()))
    {
      var index: uint32;
      var n := |free|;
      if n > 0 {
        index := free[n - 1];
        free := free[..n - 1];
      } else {
        index := |generations| % TWO_32;
        generations := generations + [0];
      }
      generations := generations[index := Inc32(generations[index])];
      var generation := generations[index];
      alive := Inc32(alive);
      id := EntityID(index, generation);
    }

    method Destroy(id: EntityID) returns (ok: bool)
      requires Valid()
      modifies this
      ensures Valid() && (Model(), ok) == DestroyIn(old(Model()), id)
    {
      if id.IsZero() {
        return false;
      }
      var found := IsAliveLocked(id);
      if !found {
        return false;
      }
      alive := Dec32(alive);
      generations := generations[id.index := Inc32(generations[id.index])];
      free := free + [id.index];
      ok := true;
    }

    method IsAlive(id: EntityID) returns (ok: bool)
      requires Valid()
      ensures ok == IsAliveIn(Model(), id)
    {
      if id.IsZero() {
        return false;
      }
      ok := IsAliveLocked(id);
    }

    /** With the representation invariant, the number of allocated slots. */
    method Count() returns (n: nat)
      requires Valid()
      ensures RepInv(Model()) ==> n == OddCount(Model().generations)
      ensures n == Model().alive
    {
      n := alive;
      if RepInv(Model()) {
        AliveCountsOdd(Model());
      }
    }

    /** With the representation invariant and an odd generation, whether the slot is allocated to the identifier. */
    method IsAliveLocked(id: EntityID) returns (ok: bool)
      requires Valid()
      ensures !id.IsZero() ==> ok == IsAliveIn(Model(), id)
      ensures RepInv(Model()) && Odd(id.generation) && ok ==> id.index !in free
    {
      var idx := id.index;
      if idx >= |generations| % TWO_32 {
        return false;
      }
      ok := generations[idx] == id.generation;
    }
  }

  // ---------------------------------------------------------------------------------------------
  // The representation invariant the code never writes down.

  predicate Odd(x: nat) { x % 2 == 1 }

  /** Number of odd counters, that is, of allocated slots. */
  function OddCount(g: seq<uint32>): nat {
    if g == [] then 0 else (if Odd(g[|g| - 1]) then 1 else 0) + OddCount(g[..|g| - 1])
  }

  /** Slot `i` is on the free list exactly when its counter is even, and it is there once. */
  ghost predicate RepInv(r: SlotTable) {
    && |r.generations| < TWO_32
    && NoDup(r.free)
    && (forall i :: 0 <= i < |r.generations| ==> (Odd(r.generations[i]) <==> i !in r.free))
    && r.alive == |r.generations| - |r.free|
  }

  /** A slot is available without reaching the 2^32 slots at which the index width runs out. */
  predicate HasRoom(r: Slots) {
    r.free != [] || |r.generations| < TWO_32 - 1
  }

  lemma IncFlipsParity(x: uint32)
    ensures Odd(Inc32(x)) <==> !Odd(x)
  {
    if x == TWO_32 - 1 {
      assert Inc32(x) == 0;
    } else {
      assert Inc32(x) == x + 1;
    }
  }

  /**
   * Create keeps the invariant whenever there is room; whatever the counters are (a counter may
   * wrap) the identifier it returns has an odd generation and so is never the zero identifier.
   */
  lemma CreateKeepsInvariant(r: SlotTable)
    requires RepInv(r)
    ensures var (r', id) := CreateIn(r);
      && Odd(id.generation) && !id.IsZero() && !IsAliveIn(r, id)
      && (HasRoom(r) ==> RepInv(r'))
  {
    var (r', id) := CreateIn(r);
    var n := |r.free|;
    if n > 0 {
      assert r.free[n - 1] in r.free;
      IncFlipsParity(r.generations[id.index]);
      assert r'.free == r.free[..n - 1];
      assert forall i :: i in r'.free <==> i in r.free && i != id.index;
    } else {
      assert Inc32(0) == 1;
    }
  }

  /**
   * Destroy keeps the invariant exactly when it refuses the identifier or the identifier has an
   * odd generation, as every issued one does. A forged even generation that matches a free slot
   * is accepted and puts the slot on the free list a second time.
   */
  lemma DestroyKeepsInvariantIff(r: SlotTable, id: EntityID)
    requires RepInv(r)
    ensures RepInv(DestroyIn(r, id).0) <==> (!IsAliveIn(r, id) || Odd(id.generation))
    ensures Odd(id.generation) ==> !IsAliveIn(DestroyIn(r, id).0, id)
  {
    if IsAliveIn(r, id) {
      var r' := DestroyIn(r, id).0;
      IncFlipsParity(r.generations[id.index]);
      assert r'.free[|r.free|] == id.index;
      if Odd(id.generation) {
        assert id.index !in r.free;
        assert forall i :: i in r'.free <==> i in r.free || i == id.index;
        FreeWithin(r, id.index);
      } else {
        var k :| 0 <= k < |r.free| && r.free[k] == id.index;
        assert r'.free[k] == r'.free[|r.free|];
      }
    }
  }

  /** An allocated slot leaves strictly fewer free indexes than slots. */
  lemma FreeWithin(r: SlotTable, i: nat)
    requires NoDup(r.free) && i < |r.generations| && i !in r.free
    ensures |r.free| < |r.generations|
  {
    NoDupCard(r.free);
    var all := Below(|r.generations|);
    assert forall x :: x in Elements(r.free) ==> x in all;
    assert i in all && i !in Elements(r.free);
    SubsetCard(Elements(r.free), all);
  }

  /** The live counter equals the number of odd generations. */
  lemma AliveCountsOdd(r: SlotTable)
    requires RepInv(r)
    ensures r.alive == OddCount(r.generations)
  {
    EvenSetCard(r.generations);
    NoDupCard(r.free);
    assert Elements(r.free) == EvenSet(r.generations);
  }

  function EvenSet(g: seq<uint32>): set<uint32> {
    set i: uint32 | i < |g| && !Odd(g[i])
  }

  lemma EvenSetCard(g: seq<uint32>)
    requires |g| < TWO_32
    ensures |EvenSet(g)| == |g| - OddCount(g)
  {
    if g != [] {
      var t := g[..|g| - 1];
      EvenSetCard(t);
      if Odd(g[|g| - 1]) {
        assert EvenSet(g) == EvenSet(t);
      } else {
        assert EvenSet(g) == EvenSet(t) + {|g| - 1};
      }
    }
  }

  /**
   * The free list is a stack: a Create right after a Destroy takes the slot just released, with its
   * counter advanced twice, and leaves the free list and the live count as they were.
   */
  lemma CreateRecyclesLast(r: SlotTable, id: EntityID)
    requires IsAliveIn(r, id)
    ensures var (r', again) := CreateIn(DestroyIn(r, id).0);
      && again == EntityID(id.index, Inc32(Inc32(id.generation)))
      && r' == Slots(r.generations[id.index := again.generation], r.free, Inc32(Dec32(r.alive)))
  {
    var d := DestroyIn(r, id).0;
    assert d.free[..|d.free| - 1] == r.free;
    assert d.generations[id.index := Inc32(d.generations[id.index])]
        == r.generations[id.index := Inc32(Inc32(id.generation))];
  }

  /**
   * With the invariant, the identifier Create returns is alive exactly when there was room: the
   * comparison against a truncated slot count makes the 2^32nd slot dead on arrival.
   */
  lemma CreatedIsAliveIffRoom(r: SlotTable)
    requires RepInv(r)
    ensures IsAliveIn(CreateIn(r).0, CreateIn(r).1) <==> HasRoom(r)
  {
    CreateKeepsInvariant(r);
    var (r', id) := CreateIn(r);
    if !HasRoom(r) {
      assert |r'.generations| == TWO_32;
    } else {
      assert |r'.generations| % TWO_32 == |r'.generations|;
    }
  }

  // ---------------------------------------------------------------------------------------------
  // Safety over whole runs.

  datatype Op = OpCreate | OpDestroy(id: EntityID)

  /**
   * A registry together with the history of its run: the identifiers issued so far, in order,
   * and those issued but not yet successfully destroyed.
   */
  datatype History = History(slots: SlotTable, issued: seq<EntityID>, live: set<EntityID>)

  const START := History(EMPTY_SLOTS, [], {})

  /** A caller destroys only identifiers it was given. */
  predicate Asked(h: History, op: Op) {
    op.OpDestroy? ==> op.id in h.issued
  }

  /**
   * A Create that a caller can tell to be safe: a slot is available, and the counter of the slot
   * about to be recycled has not wrapped to zero. Every Destroy of an issued identifier is safe.
   */
  predicate Legal(h: History, op: Op) {
    match op
    case OpCreate => HasRoom(h.slots) && !RecyclesWrapped(h.slots)
    case OpDestroy(id) => id in h.issued
  }

  predicate RecyclesWrapped(r: SlotTable) {
    r.free != [] && r.generations[r.free[|r.free| - 1]] == 0
  }

  function Perform(h: History, op: Op): History {
    match op
    case OpCreate =>
      var (r, id) := CreateIn(h.slots);
      History(r, h.issued + [id], h.live + {id})
    case OpDestroy(id) =>
      var (r, ok) := DestroyIn(h.slots, id);
      History(r, h.issued, if ok then h.live - {id} else h.live)
  }

  function Run(h: History, ops: seq<Op>): History
    decreases |ops|
  {
    if ops == [] then h else Run(Perform(h, ops[0]), ops[1..])
  }

  predicate AskedRun(h: History, ops: seq<Op>)
    decreases |ops|
  {
    ops == [] || (Asked(h, ops[0]) && AskedRun(Perform(h, ops[0]), ops[1..]))
  }

  predicate LegalRun(h: History, ops: seq<Op>)
    decreases |ops|
  {
    ops == [] || (Legal(h, ops[0]) && LegalRun(Perform(h, ops[0]), ops[1..]))
  }

  /**
   * What is true of every legal run. A counter bounds the generations issued for its slot until
   * it wraps to zero, and the first identifier of every slot has been issued.
   */
  ghost predicate Safe(h: History) {
    && RepInv(h.slots)
    && NoDup(h.issued)
    && (forall id :: id in h.issued ==> Bounded(h.slots, id))
    && (forall i: uint32 :: i < |h.slots.generations| ==> EntityID(i, 1) in h.issued)
    && (forall id :: id in h.live <==> id in h.issued && IsAliveIn(h.slots, id))
  }

  predicate Bounded(r: SlotTable, id: EntityID) {
    && Odd(id.generation) && id.index < |r.generations|
    && (r.generations[id.index] == 0 || id.generation <= r.generations[id.index])
  }

  /** What callers rely on: no identifier is issued twice or is zero, and the live ones are exactly the alive ones. */
  ghost predicate Sound(h: History) {
    && NoDup(h.issued)
    && (forall id :: id in h.issued ==> !id.IsZero())
    && (forall id :: id in h.issued ==> (IsAliveIn(h.slots, id) <==> id in h.live))
    && (forall id :: id in h.issued ==> (DestroyIn(h.slots, id).1 <==> id in h.live))
  }

  ghost predicate SoundThroughout(h: History, ops: seq<Op>)
    decreases |ops|
  {
    Sound(h) && (ops == [] || SoundThroughout(Perform(h, ops[0]), ops[1..]))
  }

  lemma PerformKeepsSafe(h: History, op: Op)
    requires Safe(h) && Legal(h, op)
    ensures Safe(Perform(h, op))
  {
    if op.OpCreate? {
      CreateKeepsSafe(h);
    } else {
      DestroyKeepsSafe(h, op.id);
    }
  }

  lemma CreateKeepsSafe(h: History)
    requires Safe(h) && Legal(h, OpCreate)
    ensures Safe(Perform(h, OpCreate))
  {
    CreateKeepsInvariant(h.slots);
    CreatedIsAliveIffRoom(h.slots);
    var (r, id) := CreateIn(h.slots);
    CreatedIsNew(h);
    OthersUnaffected(h.slots, r, id.index);
    CreatedCounter(h.slots);
    var h' := Perform(h, OpCreate);
    forall e | e in h'.issued
      ensures Bounded(r, e)
    {
      assert e == id || Bounded(h.slots, e);
    }
    forall i: uint32 | i < |r.generations|
      ensures EntityID(i, 1) in h'.issued
    {
      assert i < |h.slots.generations| || EntityID(i, 1) == id;
    }
    OnlyOneAlive(h, id);
  }

  /** Create advances exactly one counter, without a wrap if the slot's counter is even. */
  lemma CreatedCounter(r: SlotTable)
    requires RepInv(r) && HasRoom(r)
    ensures var (r', id) := CreateIn(r);
      && id.index < |r'.generations| && r'.generations[id.index] == id.generation
      && (if r.free == [] then id == EntityID(|r.generations|, 1) && |r'.generations| == |r.generations| + 1
          else |r'.generations| == |r.generations| && id.index == r.free[|r.free| - 1]
               && id.generation == r.generations[id.index] + 1)
      && (forall k :: 0 <= k < |r.generations| && k != id.index ==> r'.generations[k] == r.generations[k])
  {
    if r.free != [] {
      var index := r.free[|r.free| - 1];
      assert index in r.free;
      assert r.generations[index] != TWO_32 - 1;
    }
  }

  /** The identifier of a safe Create has not been issued before. */
  lemma CreatedIsNew(h: History)
    requires Safe(h) && Legal(h, OpCreate)
    ensures CreateIn(h.slots).1 !in h.issued
  {
    CreatedCounter(h.slots);
    assert forall e :: e in h.issued ==> Bounded(h.slots, e);
    assert !Bounded(h.slots, CreateIn(h.slots).1);
  }

  /** After a Create, the identifiers of the created index that are alive are the created one. */
  lemma OnlyOneAlive(h: History, id: EntityID)
    requires Safe(h) && Legal(h, OpCreate) && id == CreateIn(h.slots).1
    ensures var r := CreateIn(h.slots).0;
      forall e :: e in h.issued && e.index == id.index ==> !IsAliveIn(r, e) && e !in h.live
  {
    CreatedCounter(h.slots);
    CreatedIsNew(h);
    CreateKeepsInvariant(h.slots);
    forall e | e in h.issued && e.index == id.index
      ensures !IsAliveIn(CreateIn(h.slots).0, e) && e !in h.live
    {
      assert Bounded(h.slots, e) && e != id;
      assert h.slots.free[|h.slots.free| - 1] in h.slots.free;
    }
  }

  lemma DestroyKeepsSafe(h: History, id: EntityID)
    requires Safe(h) && id in h.issued
    ensures Safe(Perform(h, OpDestroy(id)))
  {
    DestroyKeepsInvariantIff(h.slots, id);
    assert Bounded(h.slots, id);
    var (r, ok) := DestroyIn(h.slots, id);
    if ok {
      OthersUnaffected(h.slots, r, id.index);
      IncFlipsParity(id.generation);
      forall e | e in h.issued
        ensures Bounded(r, e)
      {
        assert Bounded(h.slots, e);
      }
      forall e | e in h.issued && e.index == id.index
        ensures !IsAliveIn(r, e) && (IsAliveIn(h.slots, e) ==> e == id)
      {
        assert Bounded(h.slots, e);
      }
    }
  }

  /** Advancing one counter changes nothing about identifiers with another index. */
  lemma OthersUnaffected(r: Slots, r': Slots, i: nat)
    requires |r.generations| <= |r'.generations| < TWO_32
    requires forall k :: 0 <= k < |r.generations| && k != i ==> r'.generations[k] == r.generations[k]
    ensures forall id: EntityID :: id.index != i && id.index < |r.generations| ==>
      (IsAliveIn(r', id) <==> IsAliveIn(r, id))
  {
  }

  /** What callers rely on survives the next operation exactly when the operation is legal. */
  lemma StepIsSoundIff(h: History, op: Op)
    requires Safe(h) && Asked(h, op)
    ensures Sound(h)
    ensures Sound(Perform(h, op)) <==> Legal(h, op)
  {
    SafeIsSound(h);
    if Legal(h, op) {
      PerformKeepsSafe(h, op);
      SafeIsSound(Perform(h, op));
    } else {
      var h' := Perform(h, op);
      var id := h'.issued[|h.issued|];
      CreateKeepsInvariant(h.slots);
      CreatedIsAliveIffRoom(h.slots);
      assert id in h'.issued && id in h'.live;
      if HasRoom(h.slots) {
        CreateReissuesIff(h);
      }
    }
  }

  lemma SafeIsSound(h: History)
    requires Safe(h)
    ensures Sound(h)
  {
    assert forall id :: id in h.issued ==> Bounded(h.slots, id);
  }

  /** With a slot available, Create repeats an identifier exactly when the recycled counter has wrapped to zero. */
  lemma CreateReissuesIff(h: History)
    requires Safe(h) && HasRoom(h.slots)
    ensures NoDup(Perform(h, OpCreate).issued) <==> !RecyclesWrapped(h.slots)
  {
    CreatedCounter(h.slots);
    var id := CreateIn(h.slots).1;
    if RecyclesWrapped(h.slots) {
      assert id == EntityID(id.index, 1);
      var k :| 0 <= k < |h.issued| && h.issued[k] == id;
      assert Perform(h, OpCreate).issued[k] == Perform(h, OpCreate).issued[|h.issued|];
    } else {
      CreatedIsNew(h);
    }
  }

  lemma {:induction false} RunKeepsSafe(h: History, ops: seq<Op>)
    requires Safe(h) && LegalRun(h, ops)
    ensures Safe(Run(h, ops))
    decreases |ops|
  {
    hide Safe, Legal, Perform;
    if ops != [] {
      PerformKeepsSafe(h, ops[0]);
      RunKeepsSafe(Perform(h, ops[0]), ops[1..]);
    }
  }

  lemma {:induction false} SoundIffLegal(h: History, ops: seq<Op>)
    requires Safe(h) && AskedRun(h, ops)
    ensures SoundThroughout(h, ops) <==> LegalRun(h, ops)
    decreases |ops|
  {
    hide Safe, Sound, Legal, Perform, Asked;
    SafeIsSound(h);
    if ops != [] {
      StepIsSoundIff(h, ops[0]);
      if Legal(h, ops[0]) {
        PerformKeepsSafe(h, ops[0]);
        SoundIffLegal(Perform(h, ops[0]), ops[1..]);
      } else {
        NotSoundAtOnce(Perform(h, ops[0]), ops[1..]);
      }
    }
  }

  lemma NotSoundAtOnce(h: History, ops: seq<Op>)
    requires !Sound(h)
    ensures !SoundThroughout(h, ops)
  {
  }

  /**
   * Safety over whole runs that destroy only issued identifiers: no identifier is issued twice,
   * none is zero, and each is alive, and can be destroyed, exactly from the Create that issued it
   * to the Destroy that released it, throughout the run, if and only if no Create runs out of
   * indexes or recycles a counter that has wrapped to zero.
   */
  lemma RunsAreSafe(ops: seq<Op>)
    requires AskedRun(START, ops)
    ensures SoundThroughout(START, ops) <==> LegalRun(START, ops)
    ensures LegalRun(START, ops) ==> Run(START, ops).slots.alive == OddCount(Run(START, ops).slots.generations)
  {
    assert Safe(START);
    SoundIffLegal(START, ops);
    if LegalRun(START, ops) {
      RunKeepsSafe(START, ops);
      AliveCountsOdd(Run(START, ops).slots);
    }
  }

  /** Once released, an identifier stays dead through every legal continuation of the run. */
  lemma {:induction false} DestroyedStaysDead(h: History, id: EntityID, ops: seq<Op>)
    requires Safe(h) && id in h.issued && id !in h.live && LegalRun(h, ops)
    ensures id in Run(h, ops).issued && id !in Run(h, ops).live && !IsAliveIn(Run(h, ops).slots, id)
    decreases |ops|
  {
    RunKeepsSafe(h, ops);
    if ops != [] {
      var h' := Perform(h, ops[0]);
      PerformKeepsSafe(h, ops[0]);
      if ops[0].OpCreate? {
        CreatedIsNew(h);
      }
      hide Safe, Legal, LegalRun;
      DestroyedStaysDead(h', id, ops[1..]);
    }
  }

  // ---------------------------------------------------------------------------------------------
  // The two ways to fail, reached from the empty registry.

  /** `n` times: create the entity of slot 0 and destroy it. */
  function Cycles(n: nat): seq<Op>
    requires n <= TWO_32 / 2
  {
    if n == 0 then [] else Cycles(n - 1) + [OpCreate, OpDestroy(EntityID(0, 2 * n - 1))]
  }

  function FirstIDs(n: nat): seq<EntityID>
    requires n <= TWO_32 / 2
  {
    seq(n, k requires 0 <= k < n => EntityID(0, 2 * k + 1))
  }

  function AfterCycles(n: nat): History
    requires n <= TWO_32 / 2
  {
    if n == 0 then START else History(Slots([(2 * n) % TWO_32], [0], 0), FirstIDs(n), {})
  }

  lemma {:induction false} RunConcat(h: History, a: seq<Op>, b: seq<Op>)
    ensures Run(h, a + b) == Run(Run(h, a), b)
    ensures LegalRun(h, a + b) <==> LegalRun(h, a) && LegalRun(Run(h, a), b)
    decreases |a|
  {
    hide Legal, Perform;
    if a == [] {
      assert a + b == b;
    } else {
      assert (a + b)[0] == a[0] && (a + b)[1..] == a[1..] + b;
      RunConcat(Perform(h, a[0]), a[1..], b);
    }
  }

  lemma OneCycle(n: nat)
    requires n < TWO_32 / 2
    ensures var ops := [OpCreate, OpDestroy(EntityID(0, 2 * n + 1))];
      LegalRun(AfterCycles(n), ops) && Run(AfterCycles(n), ops) == AfterCycles(n + 1)
  {
    var id := EntityID(0, 2 * n + 1);
    var h1 := History(Slots([2 * n + 1], [], 1), FirstIDs(n) + [id], {id});
    TwoSteps(AfterCycles(n), OpCreate, OpDestroy(id));
    FirstHalf(n);
    SecondHalf(n);
    hide Perform, Legal, AfterCycles, Run, LegalRun;
  }

  lemma FirstHalf(n: nat)
    requires n < TWO_32 / 2
    ensures var id := EntityID(0, 2 * n + 1);
      Legal(AfterCycles(n), OpCreate)
      && Perform(AfterCycles(n), OpCreate) == History(Slots([2 * n + 1], [], 1), FirstIDs(n) + [id], {id})
  {
  }

  lemma SecondHalf(n: nat)
    requires n < TWO_32 / 2
    ensures var id := EntityID(0, 2 * n + 1);
      var h := History(Slots([2 * n + 1], [], 1), FirstIDs(n) + [id], {id});
      Legal(h, OpDestroy(id)) && Perform(h, OpDestroy(id)) == AfterCycles(n + 1)
  {
    var id := EntityID(0, 2 * n + 1);
    assert FirstIDs(n) + [id] == FirstIDs(n + 1);
    assert {id} - {id} == {};
  }

  lemma OneStep(h: History, op: Op)
    ensures Run(h, [op]) == Perform(h, op)
    ensures LegalRun(h, [op]) <==> Legal(h, op)
  {
    hide Perform, Legal;
    assert [op][1..] == [];
    var h1 := Perform(h, op);
    assert Run(h1, []) == h1 && LegalRun(h1, []);
  }

  lemma TwoSteps(h: History, a: Op, b: Op)
    ensures Run(h, [a, b]) == Perform(Perform(h, a), b)
    ensures LegalRun(h, [a, b]) <==> Legal(h, a) && Legal(Perform(h, a), b)
  {
    hide Perform, Legal;
    assert [a, b][1..] == [b] && [b][1..] == [];
    var h1 := Perform(h, a);
    OneStep(h1, b);
  }

  lemma NoCycles()
    ensures LegalRun(START, []) && Run(START, []) == START == AfterCycles(0)
  {
  }

  lemma {:induction false} CyclesRun(n: nat)
    requires n <= TWO_32 / 2
    ensures LegalRun(START, Cycles(n)) && Run(START, Cycles(n)) == AfterCycles(n)
  {
    hide Perform, Legal, AfterCycles, Run, LegalRun;
    if n == 0 {
      NoCycles();
    } else {
      CyclesRun(n - 1);
      OneCycle(n - 1);
      RunConcat(START, Cycles(n - 1), [OpCreate, OpDestroy(EntityID(0, 2 * n - 1))]);
    }
  }

  /**
   * The wrapped state is reached: after 2^31 times creating and destroying one entity, each of
   * them legal, the next Create returns the first identifier again.
   */
  lemma WrapReissuesAnIdentifier()
    ensures var ops := Cycles(TWO_32 / 2);
      && LegalRun(START, ops)
      && var h := Run(START, ops);
         && RecyclesWrapped(h.slots)
         && CreateIn(h.slots).1 == EntityID(0, 1) && EntityID(0, 1) in h.issued
         && !NoDup(Perform(h, OpCreate).issued)
  {
    var n := TWO_32 / 2;
    CyclesRun(n);
    hide Cycles;
    var h := AfterCycles(n);
    assert h.issued[0] == EntityID(0, 1);
    assert Perform(h, OpCreate).issued[0] == Perform(h, OpCreate).issued[n];
  }

  /**
   * After creating and destroying one entity, the identifier with the next, even generation was
   * never issued, yet it is alive, and destroying it puts the slot on the free list twice.
   */
  lemma ForgedIdentifierIsAccepted()
    ensures var forged := EntityID(0, 2);
      var h := Run(START, [OpCreate, OpDestroy(EntityID(0, 1))]);
      && LegalRun(START, [OpCreate, OpDestroy(EntityID(0, 1))])
      && forged !in h.issued && IsAliveIn(h.slots, forged)
      && RepInv(h.slots) && !RepInv(DestroyIn(h.slots, forged).0)
      && DestroyIn(h.slots, forged).0.free == [0, 0]
  {
    OneCycle(0);
    var r := AfterCycles(1).slots;
    assert r == Slots([2], [0], 0);
    assert DestroyIn(r, EntityID(0, 2)).0.free == [0, 0];
  }
}
