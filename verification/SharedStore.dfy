/**
 * The shared strategy: entities map to value ids, value ids to reference-counted values, and
 * deeply equal values are stored once.
 */
module SharedStore {
  import opened Prelude
  import opened EntityRegistry
  import opened Stores

  datatype SharedValue = SharedValue(data: Value, refCount: int)

  type Assignment = map<EntityID, uint32>

  type Values = map<uint32, SharedValue>

  datatype Stats = Stats(entityCount: int, uniqueValueCount: int, sharingRatio: real)

  /** The entities assigned the value id `v`. */
  ghost function Referrers(em: Assignment, v: uint32): set<EntityID> {
    set e | e in em && em[e] == v
  }

  /**
   * Reference counts are exact and positive, no two stored values are deeply equal, and no entity
   * is assigned a missing value id.
   */
  ghost predicate Consistent(em: Assignment, values: Values) {
    && (forall e :: e in em ==> em[e] in values)
    && (forall v :: v in values ==> values[v].refCount == |Referrers(em, v)| && values[v].refCount > 0)
    && (forall v, w :: v in values && w in values && v != w ==> !DeepEqual(values[v].data, values[w].data))
  }

  ghost function ContentsOf(em: Assignment, values: Values): Contents {
    map e | e in em && em[e] in values :: values[em[e]].data
  }

  /** Assigning `id` the value id `w` in `after` gives `id` the representative of `value`, and changes no other entity. */
  ghost predicate Updated(em: Assignment, before: Values, id: EntityID, value: Value, w: uint32, after: Values) {
    ContentsOf(em[id := w], after) == ContentsOf(em, before)[id := Representative(ContentsOf(em, before), value)]
  }

  /** The same, with exact reference counts. */
  ghost predicate Referred(em: Assignment, before: Values, id: EntityID, value: Value, w: uint32, after: Values) {
    Consistent(em[id := w], after) && Updated(em, before, id, value, w, after)
  }

  /** Every stored value is held by some entity. */
  lemma StoredIsReferred(em: Assignment, values: Values, v: uint32) returns (e: EntityID)
    requires Consistent(em, values) && v in values
    ensures e in em && em[e] == v
  {
    assert Referrers(em, v) != {};
    e :| e in Referrers(em, v);
  }

  /** Another entity than those left out holds a deeply equal value. */
  ghost predicate Held(em: Assignment, values: Values, value: Value) {
    exists e :: e in em && em[e] in values && DeepEqual(values[em[e]].data, value)
  }

  ghost predicate Assigned(em: Assignment, v: uint32) {
    exists e :: e in em && em[e] == v
  }

  class Store {
    var entityToValue: Assignment
    var valueToData: Values
    var nextValueID: uint32
    var count: int
    /** How many value ids have been handed out since the store was made. */
    ghost var issued: nat
    /** A value has been stored under an id still in use. */
    ghost var damaged: bool

    ghost predicate Damaged()
      reads this
    {
      damaged
    }

    /** Below 2^32 - 1 ids the counter has not come round to an id in use. */
    ghost predicate Valid()
      reads this
    {
      && count == |entityToValue|
      && (!damaged ==> Consistent(entityToValue, valueToData))
      && (issued < TWO_32 - 1 ==>
            !damaged && nextValueID == issued + 1 && forall v :: v in valueToData ==> v <= issued)
    }

    ghost function View(): Contents
      reads this
    {
      ContentsOf(entityToValue, valueToData)
    }

    /** No other entity holds a value deeply equal to `value`. */
    ghost predicate New(id: EntityID, value: Value)
      reads this
    {
      !Held(entityToValue - {id}, valueToData, value)
    }

    /** Setting `value` for `id` would store it under an id that another entity is assigned. */
    ghost predicate Overwrites(id: EntityID, value: Value)
      reads this
    {
      !id.IsZero() && New(id, value) && Assigned(entityToValue - {id}, nextValueID)
    }

    constructor ()
      ensures Valid() && View() == map[] && !damaged && issued == 0
      ensures entityToValue == map[] && nextValueID == 1
    {
      entityToValue, valueToData, nextValueID, count := map[], map[], 1, 0;
      issued, damaged := 0, false;
    }

    method Len() returns (n: int)
      requires Valid()
      ensures !damaged ==> n == |View()|
    {
      assert !damaged ==> View().Keys == entityToValue.Keys;
      n := count;
    }

    method Has(id: EntityID) returns (ok: bool)
      requires Valid()
      ensures !damaged ==> (ok <==> id in View())
    {
      ok := id in entityToValue;
    }

    method Get(id: EntityID) returns (v: Option<Value>)
      ensures v == if id in View() then Some(View()[id]) else None
    {
      if id !in entityToValue {
        return None;
      }
      var valueID := entityToValue[id];
      if valueID !in valueToData {
        return None;
      }
      v := Some(valueToData[valueID].data);
    }

    /** The visitor sees the entries in some order, up to the first it refuses. */
    method Iterate(fn: (EntityID, Value) -> bool) returns (visited: seq<Entry>)
      ensures exists all: seq<Entry> :: Lists(all, View()) && visited == Visited(all, fn)
    {
      var entries := [];
      var todo := entityToValue.Keys;
      while todo != {}
        invariant todo <= entityToValue.Keys
        invariant Lists(entries, map e | e in View() && e !in todo :: View()[e])
        decreases todo
      {
        var entityID :| entityID in todo;
        ghost var seen := map e | e in View() && e !in todo :: View()[e];
        todo := todo - {entityID};
        var valueID := entityToValue[entityID];
        ghost var seen' := map e | e in View() && e !in todo :: View()[e];
        if valueID in valueToData {
          assert seen' == seen[entityID := valueToData[valueID].data];
          entries := entries + [(entityID, valueToData[valueID].data)];
        } else {
          assert seen' == seen;
        }
      }
      assert (map e | e in View() && e !in todo :: View()[e]) == View();
      assert Lists(entries, View());
      visited := VisitAll(entries, fn);
    }

    /**
     * The map becomes the deduplicating update exactly when the value is not stored under an id
     * in use, which a caller can tell before the call.
     */
    method Set(id: EntityID, value: Value) returns (err: Option<StoreError>)
      requires Valid()
      modifies this
      ensures Valid() && old(issued) <= issued <= old(issued) + 1
      ensures old(damaged) ==> damaged
      ensures !old(damaged) ==> (damaged <==> old(Overwrites(id, value)))
      ensures err == SetIn(Shared, old(View()), id, value).1
      ensures !old(damaged) ==> (View() == SetIn(Shared, old(View()), id, value).0 <==> !damaged)
      ensures err.None? ==> id in entityToValue && entityToValue - {id} == old(entityToValue) - {id}
      ensures err.None? && !old(damaged) && old(New(id, value)) ==>
        nextValueID == Inc32(old(nextValueID)) && entityToValue[id] == old(nextValueID)
    {
      hide Consistent, ContentsOf, SharedSet, Assigned, New;
      if id.IsZero() {
        return Some(ZeroEntity);
      }
      ghost var before := View();
      ReleaseLocked(id);
      AssignLocked(id, value, before);
      err := None;
    }

    /** The first half of Set: the old reference of `id` is dropped, or a new entity is counted. */
    method ReleaseLocked(id: EntityID)
      requires Valid()
      modifies this`valueToData, this`count
      ensures count == |entityToValue - {id}| + 1
      ensures valueToData.Keys <= old(valueToData).Keys
      ensures !damaged ==>
        && Consistent(entityToValue - {id}, valueToData)
        && ContentsOf(entityToValue - {id}, valueToData) == old(View()) - {id}
        && forall value :: New(id, value) == old(New(id, value))
    {
      hide Consistent, ContentsOf, Held;
      SizeWithout(entityToValue, id);
      if id in entityToValue {
        var oldValueID := entityToValue[id];
        DecrementRefCountLocked(oldValueID, id);
      } else {
        assert entityToValue - {id} == entityToValue;
        AbsentFromContents(entityToValue, valueToData, id);
        count := count + 1;
      }
    }

    /** The second half of Set: the entity is assigned the id of its value, found or new. */
    method AssignLocked(id: EntityID, value: Value, ghost before: Contents)
      requires count == |entityToValue - {id}| + 1
      requires !damaged ==>
        Consistent(entityToValue - {id}, valueToData) && ContentsOf(entityToValue - {id}, valueToData) == before - {id}
      requires issued < TWO_32 - 1 ==>
        !damaged && nextValueID == issued + 1 && forall v :: v in valueToData ==> v <= issued
      modifies this
      ensures Valid() && old(issued) <= issued <= old(issued) + 1
      ensures old(damaged) ==> damaged
      ensures !old(damaged) ==>
        && (damaged <==> old(New(id, value) && Assigned(entityToValue - {id}, nextValueID)))
        && (View() == SharedSet(before, id, value) <==> !damaged)
      ensures id in entityToValue && entityToValue - {id} == old(entityToValue) - {id}
      ensures !old(damaged) && old(New(id, value)) ==>
        nextValueID == Inc32(old(nextValueID)) && entityToValue[id] == old(nextValueID)
    {
      hide Consistent, Representative, ContentsOf, SharedSet, Referred, Updated, Held, Assigned;
      ghost var others, released := entityToValue - {id}, valueToData;
      var valueID := FindOrCreateValueLocked(value, id, others);
      SizeAfterAssignment(entityToValue, id, valueID);
      entityToValue := entityToValue[id := valueID];
      if !old(damaged) {
        ReferredIsSet(before, others, released, id, value, valueID, valueToData);
      }
    }

    method Remove(id: EntityID) returns (ok: bool)
      requires Valid()
      modifies this
      ensures Valid() && issued == old(issued) && damaged == old(damaged)
      ensures !damaged ==> (ok <==> id in old(View()))
      ensures !damaged ==> View() == old(View()) - {id}
    {
      hide Consistent, Held;
      if id !in entityToValue {
        return false;
      }
      KeysAreAssigned(entityToValue, valueToData);
      var valueID := entityToValue[id];
      DecrementRefCountLocked(valueID, id);
      entityToValue := entityToValue - {id};
      count := count - 1;
      ok := true;
    }

    /** An empty store is as good as new, but for the ids. */
    method Clear()
      requires Valid()
      modifies this
      ensures Valid() && issued == old(issued) && !damaged
      ensures View() == map[]
    {
      entityToValue := map[];
      valueToData := map[];
      count := 0;
      damaged := false;
    }

    /**
     * Drops the reference `id` holds. The counts are then exact for the other entities, while
     * `id` itself is still assigned a value that may be gone.
     */
    method DecrementRefCountLocked(valueID: uint32, ghost id: EntityID)
      requires id in entityToValue && entityToValue[id] == valueID
      requires !damaged ==> Consistent(entityToValue, valueToData)
      modifies this`valueToData
      ensures valueToData.Keys <= old(valueToData).Keys
      ensures !damaged ==> Consistent(entityToValue - {id}, valueToData)
      ensures !damaged ==> ContentsOf(entityToValue - {id}, valueToData) == old(View()) - {id}
      ensures !damaged ==> forall value ::
        Held(entityToValue - {id}, valueToData, value) <==> old(Held(entityToValue - {id}, valueToData, value))
    {
      hide Held;
      if valueID !in valueToData {
        return;
      }
      if !damaged {
        DropReference(entityToValue, valueToData, id);
        DropReferenceContents(entityToValue, valueToData, id);
        DropReferenceHolds(entityToValue, valueToData, id);
      }
      ghost var released := Released(valueToData, valueID);
      ghost var reduced := valueToData[valueID := valueToData[valueID].(refCount := valueToData[valueID].refCount - 1)];
      assert released == if reduced[valueID].refCount <= 0 then reduced - {valueID} else reduced;
      valueToData := valueToData[valueID := valueToData[valueID].(refCount := valueToData[valueID].refCount - 1)];
      if valueToData[valueID].refCount <= 0 {
        valueToData := valueToData - {valueID};
      }
      assert valueToData == released;
    }

    /** Finds the value by deep equality, in any search order, or stores it under the next id. */
    method FindOrCreateValueLocked(value: Value, ghost id: EntityID, ghost others: Assignment)
      returns (valueID: uint32)
      requires id !in others
      requires !damaged ==> Consistent(others, valueToData)
      requires issued < TWO_32 - 1 ==>
        !damaged && nextValueID == issued + 1 && forall v :: v in valueToData ==> v <= issued
      modifies this`valueToData, this`nextValueID, this`issued, this`damaged
      ensures old(issued) <= issued <= old(issued) + 1
      ensures issued < TWO_32 - 1 ==>
        !damaged && nextValueID == issued + 1 && forall v :: v in valueToData ==> v <= issued
      ensures old(damaged) ==> damaged
      ensures !old(damaged) ==>
        && (damaged <==> !Held(others, old(valueToData), value) && Assigned(others, old(nextValueID)))
        && (Referred(others, old(valueToData), id, value, valueID, valueToData) <==> !damaged)
        && (Updated(others, old(valueToData), id, value, valueID, valueToData) <==> !damaged)
      ensures !old(damaged) && !Held(others, old(valueToData), value) ==>
        nextValueID == Inc32(old(nextValueID)) && valueID == old(nextValueID)
    {
      hide Consistent, Referred, Updated, Held, Assigned;
      var values := valueToData;
      var todo := values.Keys;
      while todo != {}
        invariant todo <= values.Keys
        invariant forall v :: v in values && v !in todo ==> !DeepEqual(values[v].data, value)
        decreases todo
      {
        valueID :| valueID in todo;
        todo := todo - {valueID};
        var sharedVal := values[valueID];
        if DeepEqual(sharedVal.data, value) {
          if !damaged {
            AddReference(others, values, id, valueID, value);
          }
          valueToData := values[valueID := sharedVal.(refCount := sharedVal.refCount + 1)];
          return;
        }
      }
      if !damaged {
        AddValueIff(others, values, nextValueID, id, value);
        damaged := nextValueID in values;
      }
      valueID := nextValueID;
      nextValueID := Inc32(nextValueID);
      issued := issued + 1;
      valueToData := valueToData[valueID := SharedValue(value, 1)];
    }

    method Statistics() returns (stats: Stats)
      requires Valid()
      ensures !damaged ==>
        && stats.entityCount == |View()|
        && stats.uniqueValueCount == |DistinctContents(View())| <= stats.entityCount
        && (View() != map[] ==>
              stats.uniqueValueCount > 0 &&
              stats.sharingRatio == stats.entityCount as real / stats.uniqueValueCount as real >= 1.0)
    {
      var unique := |valueToData|;
      stats := Stats(count, unique, count as real / (if unique > 1 then unique else 1) as real);
      if !damaged {
        hide Consistent;
        UniqueIsDistinct(entityToValue, valueToData);
        if unique > 0 {
          RatioAtLeastOne(count as real, unique as real);
        }
      }
    }
  }

  const KEEPER: EntityID := EntityID(0, 1)
  const CHANGER: EntityID := EntityID(1, 1)

  /** One entity keeps its first value while another is given `n` values, each for the first time. */
  ghost predicate Wearing(s: Store, n: nat)
    reads s
  {
    && s.Valid() && !s.damaged
    && s.entityToValue - {CHANGER} == map[KEEPER := 1]
    && s.View() - {CHANGER} == map[KEEPER := Value(0, 0)]
    && s.nextValueID == (n + 2) % TWO_32
  }

  lemma WearingMeans(s: Store, n: nat)
    requires Wearing(s, n)
    ensures s.New(CHANGER, Value(n + 1, 0))
    ensures s.Overwrites(CHANGER, Value(n + 1, 0)) <==> s.nextValueID == 1
  {
    assert KEEPER in s.entityToValue - {CHANGER} && KEEPER in s.View() - {CHANGER};
    assert s.View()[KEEPER] == Value(0, 0);
    assert (s.entityToValue - {CHANGER})[KEEPER] == 1;
  }

  lemma NextAfter(n: nat)
    requires n < TWO_32
    ensures (n + 2) % TWO_32 == 1 <==> n == TWO_32 - 1
    ensures Inc32((n + 2) % TWO_32) == (n + 3) % TWO_32
  {
  }

  method ChangeOnce(s: Store, n: nat)
    requires Wearing(s, n) && n < TWO_32
    modifies s
    ensures s.Valid()
    ensures if n == TWO_32 - 1 then
        s.damaged && s.View() != map[KEEPER := Value(0, 0), CHANGER := Value(n + 1, 0)]
      else Wearing(s, n + 1)
  {
    WearingMeans(s, n);
    NextAfter(n);
    FreshUpdate(s.View(), Value(n + 1, 0));
    var err := s.Set(CHANGER, Value(n + 1, 0));
  }

  lemma FreshUpdate(m: Contents, v: Value)
    requires m - {CHANGER} == map[KEEPER := Value(0, 0)] && v.content != 0
    ensures SharedSet(m, CHANGER, v) == map[KEEPER := Value(0, 0), CHANGER := v]
    ensures SharedSet(m, CHANGER, v) - {CHANGER} == map[KEEPER := Value(0, 0)]
  {
    assert Representative(map[KEEPER := Value(0, 0)], v) == v;
  }

  method StartWearing() returns (s: Store)
    ensures fresh(s) && Wearing(s, 0)
  {
    hide Consistent, ContentsOf, SharedSet;
    FirstUpdate();
    s := new Store();
    var err := s.Set(KEEPER, Value(0, 0));
    FirstEntry(s.entityToValue, s.View());
  }

  lemma FirstUpdate()
    ensures SharedSet(map[], KEEPER, Value(0, 0)) == map[KEEPER := Value(0, 0)]
  {
    assert Representative(map[], Value(0, 0)) == Value(0, 0);
  }

  lemma FirstEntry(em: Assignment, m: Contents)
    requires KEEPER in em && em - {KEEPER} == map[] && m == map[KEEPER := Value(0, 0)]
    ensures em - {CHANGER} == map[KEEPER := em[KEEPER]] && m - {CHANGER} == m
  {
    assert forall e :: e in em ==> e == KEEPER || e in em - {KEEPER};
  }

  /**
   * The counter can be brought round to an id in use: one entity keeps the first value while
   * another is given 2^32 new ones, and the last of them is stored over the first value.
   */
  method WearOut() returns (s: Store)
    ensures fresh(s) && s.Valid() && s.damaged
    ensures s.View() != map[KEEPER := Value(0, 0), CHANGER := Value(TWO_32, 0)]
  {
    hide Wearing;
    s := StartWearing();
    var n := 0;
    while n < TWO_32 - 1
      invariant 0 <= n <= TWO_32 - 1 && fresh(s) && Wearing(s, n)
    {
      ChangeOnce(s, n);
      n := n + 1;
    }
    ChangeOnce(s, n);
  }

  lemma RatioAtLeastOne(c: real, u: real)
    requires c >= u > 0.0
    ensures c / u >= 1.0
  {
    BelowOne(c / u, u);
  }

  lemma BelowOne(x: real, u: real)
    requires u > 0.0
    ensures x < 1.0 ==> x * u < u
  {
  }

  lemma KeysAreAssigned(em: Assignment, values: Values)
    ensures Consistent(em, values) ==> ContentsOf(em, values).Keys == em.Keys
  {
  }

  lemma AbsentFromContents(em: Assignment, values: Values, id: EntityID)
    requires id !in em
    ensures ContentsOf(em, values) - {id} == ContentsOf(em, values)
  {
  }

  lemma SizeAfterAssignment(em: Assignment, id: EntityID, w: uint32)
    ensures (em - {id})[id := w] == em[id := w]
    ensures |em[id := w]| == |em - {id}| + 1
    ensures em[id := w] - {id} == em - {id}
  {
    SizeWithout(em[id := w], id);
  }

  lemma SizeWithout(em: Assignment, id: EntityID)
    ensures |em - {id}| == |em| - if id in em then 1 else 0
  {
    assert (em - {id}).Keys == em.Keys - {id};
    assert |em - {id}| == |(em - {id}).Keys| && |em| == |em.Keys|;
  }

  lemma ReferredIsSet(m: Contents, others: Assignment, released: Values, id: EntityID, value: Value,
                      w: uint32, after: Values)
    requires ContentsOf(others, released) == m - {id}
    ensures Referred(others, released, id, value, w, after) ==> Consistent(others[id := w], after)
    ensures Updated(others, released, id, value, w, after)
      <==> ContentsOf(others[id := w], after) == SharedSet(m, id, value)
  {
    hide Consistent, ContentsOf, Representative;
    assert (m - {id})[id := Representative(m - {id}, value)] == m[id := Representative(m - {id}, value)];
  }

  method VisitAll(entries: seq<Entry>, fn: (EntityID, Value) -> bool) returns (visited: seq<Entry>)
    ensures visited == Visited(entries, fn)
  {
    var k := 0;
    while k < |entries|
      invariant 0 <= k <= |entries|
      invariant forall j :: 0 <= j < k ==> fn(entries[j].0, entries[j].1)
      invariant k == |entries| ==> Visited(entries, fn) == entries
    {
      VisitedStep(entries, fn, k);
      if !fn(entries[k].0, entries[k].1) {
        return entries[..k + 1];
      }
      k := k + 1;
    }
    visited := entries;
  }

  // ---------------------------------------------------------------------------------------------
  // How the three changes to the reference counts act on consistency.

  lemma ReferrersAfterRemoval(em: Assignment, id: EntityID, v: uint32)
    requires id in em
    ensures Referrers(em - {id}, v) == Referrers(em, v) - {id}
    ensures |Referrers(em - {id}, v)| == |Referrers(em, v)| - if em[id] == v then 1 else 0
  {
  }

  lemma ReferrersAfterAssignment(em: Assignment, id: EntityID, v: uint32, w: uint32)
    requires id !in em
    ensures Referrers(em[id := w], v) == Referrers(em, v) + if v == w then {id} else {}
    ensures |Referrers(em[id := w], v)| == |Referrers(em, v)| + if v == w then 1 else 0
  {
  }

  /** The values left once the reference of one entity to `w` is dropped. */
  ghost function Released(values: Values, w: uint32): Values
    requires w in values
  {
    if values[w].refCount - 1 <= 0 then values - {w}
    else values[w := values[w].(refCount := values[w].refCount - 1)]
  }

  lemma DropReference(em: Assignment, values: Values, id: EntityID)
    requires Consistent(em, values) && id in em
    ensures Consistent(em - {id}, Released(values, em[id]))
  {
    var w := em[id];
    var em' := em - {id};
    var values' := Released(values, w);
    forall v | v in values'
      ensures values'[v].refCount == |Referrers(em', v)| && values'[v].refCount > 0
    {
      ReferrersAfterRemoval(em, id, v);
    }
    forall e | e in em' ensures em'[e] in values' {
      ReleasedStillReferred(em, values, id, e);
    }
    assert forall v :: v in values' ==> v in values && values'[v].data == values[v].data;
    hide Released, Referrers;
  }

  /** A value another entity refers to is not released. */
  lemma ReleasedStillReferred(em: Assignment, values: Values, id: EntityID, e: EntityID)
    requires id in em && e in em && e != id && em[id] in values && em[e] in values
    requires values[em[id]].refCount == |Referrers(em, em[id])|
    ensures em[e] in Released(values, em[id])
  {
    ReferrersAfterRemoval(em, id, em[id]);
    if em[e] == em[id] {
      assert e in Referrers(em - {id}, em[id]);
    }
  }

  lemma DropReferenceContents(em: Assignment, values: Values, id: EntityID)
    requires Consistent(em, values) && id in em
    ensures ContentsOf(em - {id}, Released(values, em[id])) == ContentsOf(em, values) - {id}
  {
    DropReference(em, values, id);
  }

  /** Other entities hold the same values once the reference is dropped. */
  lemma DropReferenceHolds(em: Assignment, values: Values, id: EntityID)
    requires Consistent(em, values) && id in em
    ensures forall value ::
      Held(em - {id}, Released(values, em[id]), value) <==> Held(em - {id}, values, value)
  {
    DropReference(em, values, id);
    var em', values' := em - {id}, Released(values, em[id]);
    assert forall e :: e in em' ==> em'[e] in values' && em'[e] in values && values'[em'[e]].data == values[em'[e]].data;
    hide Released, Consistent;
  }

  lemma AddReference(em: Assignment, values: Values, id: EntityID, w: uint32, value: Value)
    requires Consistent(em, values) && id !in em && w in values && DeepEqual(values[w].data, value)
    ensures var values' := values[w := values[w].(refCount := values[w].refCount + 1)];
      Referred(em, values, id, value, w, values')
    ensures Held(em, values, value)
  {
    forall v ensures |Referrers(em[id := w], v)| == |Referrers(em, v)| + if w == v then 1 else 0 {
      ReferrersAfterAssignment(em, id, v, w);
    }
    var e := StoredIsReferred(em, values, w);
    var m := ContentsOf(em, values);
    ContentsAreDeduplicated(em, values);
    RepresentativeIsUnique(m, e, value);
  }

  /**
   * A value that is not stored yet, stored under the id `next`, keeps the store consistent, and
   * the other entities their values, exactly when the id is not in use.
   */
  lemma AddValueIff(em: Assignment, values: Values, next: uint32, id: EntityID, value: Value)
    requires Consistent(em, values) && id !in em
    requires forall v :: v in values ==> !DeepEqual(values[v].data, value)
    ensures var values' := values[next := SharedValue(value, 1)];
      && (Referred(em, values, id, value, next, values') <==> next !in values)
      && (Updated(em, values, id, value, next, values') <==> next !in values)
    ensures !Held(em, values, value) && (Assigned(em, next) <==> next in values)
  {
    assert forall k :: k in ContentsOf(em, values) ==> !DeepEqual(ContentsOf(em, values)[k], value);
    assert Representative(ContentsOf(em, values), value) == value;
    if next in values {
      var e := StoredIsReferred(em, values, next);
      hide Representative, Referrers;
      OverwrittenIsLost(em, values, next, id, e, value);
    } else {
      AddValueConsistent(em, values, next, id, value);
      AddValueContents(em, values, id, next, value);
      assert !Assigned(em, next);
      hide Consistent, ContentsOf, Representative;
    }
  }

  /** An entity whose value id is stored over reads the new value. */
  lemma OverwrittenIsLost(em: Assignment, values: Values, next: uint32, id: EntityID, e: EntityID, value: Value)
    requires Consistent(em, values) && id !in em && e in em && em[e] == next
    requires !DeepEqual(values[next].data, value)
    ensures var m := ContentsOf(em[id := next], values[next := SharedValue(value, 1)]);
      e in m && m[e] == value && ContentsOf(em, values)[e] != value && m != ContentsOf(em, values)[id := value]
  {
    var m := ContentsOf(em[id := next], values[next := SharedValue(value, 1)]);
    assert e != id && m[e] == value;
  }

  lemma AddValueContents(em: Assignment, values: Values, id: EntityID, w: uint32, value: Value)
    requires forall e :: e in em ==> em[e] in values
    requires id !in em && w !in values
    ensures ContentsOf(em[id := w], values[w := SharedValue(value, 1)]) == ContentsOf(em, values)[id := value]
  {
  }

  lemma AddValueConsistent(em: Assignment, values: Values, next: uint32, id: EntityID, value: Value)
    requires Consistent(em, values) && id !in em && next !in values
    requires forall v :: v in values ==> !DeepEqual(values[v].data, value)
    ensures Consistent(em[id := next], values[next := SharedValue(value, 1)])
  {
    forall v ensures |Referrers(em[id := next], v)| == |Referrers(em, v)| + if next == v then 1 else 0 {
      ReferrersAfterAssignment(em, id, v, next);
    }
    assert Referrers(em, next) == {};
  }

  lemma ContentsAreDeduplicated(em: Assignment, values: Values)
    requires Consistent(em, values)
    ensures Deduplicated(ContentsOf(em, values))
  {
  }

  // ---------------------------------------------------------------------------------------------
  // Statistics.

  ghost function DistinctContents(m: Contents): set<int> {
    set k | k in m :: m[k].content
  }

  /** The stored values are as many as the distinct contents, and no more than the entities. */
  lemma UniqueIsDistinct(em: Assignment, values: Values)
    requires Consistent(em, values)
    ensures |values| == |DistinctContents(ContentsOf(em, values))| <= |em|
    ensures |ContentsOf(em, values)| == |em|
    ensures ContentsOf(em, values) != map[] ==> values != map[]
  {
    KeysAreAssigned(em, values);
    assert |ContentsOf(em, values)| == |ContentsOf(em, values).Keys|;
    var m := ContentsOf(em, values);
    ImageIsDistinct(em, values);
    InjectiveImageCard(values);
    ImageCard(m, em.Keys);
  }

  lemma ImageIsDistinct(em: Assignment, values: Values)
    requires Consistent(em, values)
    ensures StoredContents(values) == DistinctContents(ContentsOf(em, values))
  {
    var m := ContentsOf(em, values);
    forall c | c in StoredContents(values) ensures c in DistinctContents(m) {
      var v :| v in values && values[v].data.content == c;
      var e := StoredIsReferred(em, values, v);
      assert m[e].content == c;
    }
  }

  ghost function StoredContents(values: Values): set<int> {
    set v | v in values :: values[v].data.content
  }

  lemma StoredContentsSplit(values: Values, w: uint32)
    requires w in values
    ensures StoredContents(values) == StoredContents(values - {w}) + {values[w].data.content}
  {
    var fewer := StoredContents(values - {w});
    forall c | c in StoredContents(values) && c != values[w].data.content ensures c in fewer {
      var v :| v in values && values[v].data.content == c;
      assert v in values - {w} && (values - {w})[v].data.content == c;
    }
  }

  lemma {:induction false} InjectiveImageCard(values: Values)
    requires forall v, w :: v in values && w in values && v != w ==> !DeepEqual(values[v].data, values[w].data)
    ensures |StoredContents(values)| == |values|
    decreases |values|
  {
    if values != map[] {
      var w :| w in values;
      var rest := values - {w};
      InjectiveImageCard(rest);
      StoredContentsSplit(values, w);
      assert values[w].data.content !in StoredContents(rest);
      assert |rest| == |rest.Keys| && |values| == |values.Keys| && rest.Keys == values.Keys - {w};
    } else {
      assert StoredContents(values) == {};
    }
  }

  lemma ImageCard(m: Contents, keys: set<EntityID>)
    requires m.Keys <= keys
    ensures |DistinctContents(m)| <= |keys|
    decreases |m|
  {
    if m != map[] {
      var k :| k in m;
      var rest := m - {k};
      ImageCard(rest, keys - {k});
      var d := DistinctContents(rest);
      forall c | c in DistinctContents(m) && c != m[k].content ensures c in d {
        var j :| j in m && m[j].content == c;
        assert j in rest && rest[j].content == c;
      }
      assert DistinctContents(m) == d + {m[k].content};
    } else {
      assert DistinctContents(m) == {};
    }
  }
}
