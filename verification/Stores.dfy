/**
 * What a component store means: a finite map from entities to values. The two storage strategies
 * differ in what Set does to other entries, so each has its own meaning for Set.
 */
module Stores {
  import opened Prelude
  import opened EntityRegistry

  /**
   * A component value. Deep equality looks at the content only; the identity tells apart copies
   * that are deeply equal. Every equivalence relation has this form, with the content as the class.
   */
  datatype Value = Value(content: int, identity: int)

  predicate DeepEqual(a: Value, b: Value) { a.content == b.content }

  type Contents = map<EntityID, Value>

  datatype Strategy = Dense | Shared

  datatype StoreError = ZeroEntity

  /** A slot array keeps one generation per index, so Set evicts the others. */
  function DenseSet(m: Contents, id: EntityID, v: Value): Contents {
    (map k | k in m && k.index != id.index :: m[k])[id := v]
  }

  /** The representative of `v` among the values of `m`, or `v` itself when there is none. */
  ghost function Representative(m: Contents, v: Value): Value {
    if exists k :: k in m && DeepEqual(m[k], v) then
      var k :| k in m && DeepEqual(m[k], v); m[k]
    else v
  }

  /** A deduplicating store reuses a deeply equal value held for any other entity. */
  ghost function SharedSet(m: Contents, id: EntityID, v: Value): Contents {
    m[id := Representative(m - {id}, v)]
  }

  ghost function SetIn(kind: Strategy, m: Contents, id: EntityID, v: Value): (Contents, Option<StoreError>) {
    if id.IsZero() then (m, Some(ZeroEntity))
    else (if kind.Dense? then DenseSet(m, id, v) else SharedSet(m, id, v), None)
  }

  /** Entries that are deeply equal are the same copy: nothing is stored twice. */
  ghost predicate Deduplicated(m: Contents) {
    forall j, k :: j in m && k in m && DeepEqual(m[j], m[k]) ==> m[j] == m[k]
  }

  /** In a deduplicated store the representative does not depend on the order of the search. */
  lemma RepresentativeIsUnique(m: Contents, k: EntityID, v: Value)
    requires Deduplicated(m) && k in m && DeepEqual(m[k], v)
    ensures Representative(m, v) == m[k]
  {
  }

  lemma SharedSetKeepsDeduplicated(m: Contents, id: EntityID, v: Value)
    requires Deduplicated(m)
    ensures Deduplicated(SharedSet(m, id, v))
  {
    var r := Representative(m - {id}, v);
    forall k | k in m && k != id && DeepEqual(m[k], r)
      ensures m[k] == r
    {
      assert k in m - {id} && DeepEqual((m - {id})[k], v);
    }
  }

  // ---------------------------------------------------------------------------------------------
  // Both strategies against the plain map, up to deep equality.

  /** The plain map a store stands for, with values taken up to deep equality. */
  ghost function Plain(m: Contents): map<EntityID, int> {
    map k | k in m :: m[k].content
  }

  /** The shared strategy is a plain map. */
  lemma SharedSetIsMapUpdate(m: Contents, id: EntityID, v: Value)
    ensures Plain(SharedSet(m, id, v)) == Plain(m)[id := v.content]
  {
  }

  /** The dense strategy is a plain map whose Set first evicts the other generations of the index. */
  lemma DenseSetEvictsThenUpdates(m: Contents, id: EntityID, v: Value)
    ensures Plain(DenseSet(m, id, v))
         == (map k | k in Plain(m) && k.index != id.index :: Plain(m)[k])[id := v.content]
  {
  }

  datatype StoreOp = OpSet(id: EntityID, value: Value) | OpRemove(id: EntityID) | OpClear

  ghost function Perform(kind: Strategy, m: Contents, op: StoreOp): Contents {
    match op
    case OpSet(id, v) => SetIn(kind, m, id, v).0
    case OpRemove(id) => m - {id}
    case OpClear => map[]
  }

  ghost function PerformAll(kind: Strategy, ops: seq<StoreOp>): Contents {
    if ops == [] then map[]
    else Perform(kind, PerformAll(kind, ops[..|ops| - 1]), ops[|ops| - 1])
  }

  /** What an operation answers: Set its error, Remove whether the entity was there. */
  datatype StoreAnswer = SetAnswer(err: Option<StoreError>) | RemoveAnswer(removed: bool) | ClearAnswer

  ghost function Answer(kind: Strategy, m: Contents, op: StoreOp): StoreAnswer {
    match op
    case OpSet(id, v) => SetAnswer(SetIn(kind, m, id, v).1)
    case OpRemove(id) => RemoveAnswer(id in m)
    case OpClear => ClearAnswer
  }

  /** The pairs a full iteration shows, with values up to deep equality. */
  ghost function Pairs(m: Contents): set<(EntityID, int)> {
    set k | k in m :: (k, m[k].content)
  }

  /** What a client can see of a store: membership, values up to deep equality, the size and the pairs iterated. */
  ghost predicate SameObservations(a: Contents, b: Contents) {
    && (forall id :: id in a <==> id in b)
    && (forall id :: id in a && id in b ==> DeepEqual(a[id], b[id]))
    && |a| == |b|
    && Pairs(a) == Pairs(b)
  }

  /** `op` stores an entity while another generation of the same index is stored. */
  ghost predicate Collides(m: Contents, op: StoreOp) {
    op.OpSet? && !op.id.IsZero() && exists k :: k in m && k.index == op.id.index && k != op.id
  }

  ghost predicate NeverCollides(ops: seq<StoreOp>) {
    ops == [] ||
    (NeverCollides(ops[..|ops| - 1]) && !Collides(PerformAll(Shared, ops[..|ops| - 1]), ops[|ops| - 1]))
  }

  /** The strategies look the same now, did so before every earlier operation, and gave the same answers. */
  ghost predicate AgreeThroughout(ops: seq<StoreOp>) {
    && SameObservations(PerformAll(Dense, ops), PerformAll(Shared, ops))
    && (ops != [] ==>
          var init, last := ops[..|ops| - 1], ops[|ops| - 1];
          && Answer(Dense, PerformAll(Dense, init), last) == Answer(Shared, PerformAll(Shared, init), last)
          && AgreeThroughout(init))
  }

  /** Stores that look the same answer alike, and still look the same exactly when the operation does not collide. */
  lemma StepAgreesIff(d: Contents, s: Contents, op: StoreOp)
    requires SameObservations(d, s)
    ensures Answer(Dense, d, op) == Answer(Shared, s, op)
    ensures SameObservations(Perform(Dense, d, op), Perform(Shared, s, op)) <==> !Collides(s, op)
  {
    var d', s' := Perform(Dense, d, op), Perform(Shared, s, op);
    if Collides(s, op) {
      var k :| k in s && k.index == op.id.index && k != op.id;
      assert k in s' && k !in d';
    } else {
      SameEntries(d', s');
    }
  }

  lemma SameEntries(d: Contents, s: Contents)
    requires forall id :: id in d <==> id in s
    requires forall id :: id in d && id in s ==> DeepEqual(d[id], s[id])
    ensures SameObservations(d, s)
  {
    assert d.Keys == s.Keys;
    assert |d| == |d.Keys| && |s| == |s.Keys|;
  }

  /**
   * The two strategies cannot be told apart at any point of a trace exactly when the trace never
   * stores an entity while another generation of its index is stored.
   */
  lemma {:induction false} StrategiesAgreeIff(ops: seq<StoreOp>)
    ensures AgreeThroughout(ops) <==> NeverCollides(ops)
    decreases |ops|
  {
    hide Answer, SameObservations, Collides, Perform;
    if ops != [] {
      var init := ops[..|ops| - 1];
      StrategiesAgreeIff(init);
      if AgreeThroughout(init) {
        StepAgreesIff(PerformAll(Dense, init), PerformAll(Shared, init), ops[|ops| - 1]);
      }
    } else {
      SameEntries(map[], map[]);
    }
  }

  // ---------------------------------------------------------------------------------------------
  // Iteration.

  type Entry = (EntityID, Value)

  /** `entries` lists every entry of `m` once. */
  ghost predicate Lists(entries: seq<Entry>, m: Contents) {
    && |entries| == |m|
    && (forall k :: 0 <= k < |entries| ==> entries[k].0 in m && m[entries[k].0] == entries[k].1)
    && (forall j, k :: 0 <= j < k < |entries| ==> entries[j].0 != entries[k].0)
  }

  /** Any listing of the entries, in whatever order, shows the same pairs. */
  lemma ListingShowsPairs(entries: seq<Entry>, m: Contents)
    requires Lists(entries, m)
    ensures (set k | 0 <= k < |entries| :: (entries[k].0, entries[k].1.content)) == Pairs(m)
  {
    var shown := set k | 0 <= k < |entries| :: entries[k].0;
    assert shown <= m.Keys;
    ListedOnce(entries);
    SubsetCard(shown, m.Keys);
    assert |m| == |m.Keys|;
    forall id | id in m
      ensures exists k :: 0 <= k < |entries| && (entries[k].0, entries[k].1.content) == (id, m[id].content)
    {
      assert id in shown;
      var k :| 0 <= k < |entries| && entries[k].0 == id;
    }
  }

  lemma {:induction false} ListedOnce(entries: seq<Entry>)
    requires forall j, k :: 0 <= j < k < |entries| ==> entries[j].0 != entries[k].0
    ensures |set k | 0 <= k < |entries| :: entries[k].0| == |entries|
  {
    var shown := set k | 0 <= k < |entries| :: entries[k].0;
    if entries == [] {
      assert shown == {};
    } else {
      var n := |entries| - 1;
      ListedOnce(entries[..n]);
      var fewer := set k | 0 <= k < n :: entries[..n][k].0;
      assert shown == fewer + {entries[n].0};
    }
  }

  /** The entries a visitor sees: all of them, or up to and including the first it refuses. */
  function Visited(entries: seq<Entry>, fn: (EntityID, Value) -> bool): seq<Entry> {
    if entries == [] then []
    else if !fn(entries[0].0, entries[0].1) then [entries[0]]
    else [entries[0]] + Visited(entries[1..], fn)
  }

  /** Visiting one entry at a time from the front computes `Visited`. */
  lemma VisitedStep(entries: seq<Entry>, fn: (EntityID, Value) -> bool, n: nat)
    requires n < |entries|
    requires forall k :: 0 <= k < n ==> fn(entries[k].0, entries[k].1)
    ensures !fn(entries[n].0, entries[n].1) ==> Visited(entries, fn) == entries[..n + 1]
    ensures n + 1 == |entries| && fn(entries[n].0, entries[n].1) ==> Visited(entries, fn) == entries
  {
    if n > 0 {
      VisitedStep(entries[1..], fn, n - 1);
      assert entries == [entries[0]] + entries[1..];
      assert entries[..n + 1] == [entries[0]] + entries[1..][..n];
    } else {
      assert entries[..1] == [entries[0]];
    }
  }
}
