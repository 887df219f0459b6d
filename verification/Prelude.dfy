/** Shared vocabulary: optional values, fixed-width integers and a few facts about sequences. */
module Prelude {

  datatype Option<+T> = None | Some(value: T)

  datatype Result<+T, +E> = Ok(value: T) | Err(error: E)

  const TWO_32: nat := 0x1_0000_0000
  const TWO_64: nat := 0x1_0000_0000_0000_0000

  type uint32 = x: nat | x < TWO_32
  type uint64 = x: nat | x < TWO_64

  predicate NoDup<T(==)>(s: seq<T>) {
    forall i, j :: 0 <= i < j < |s| ==> s[i] != s[j]
  }

  function Elements<T>(s: seq<T>): set<T> {
    set x | x in s
  }

  function Sum(s: seq<nat>): nat {
    if s == [] then 0 else s[0] + Sum(s[1..])
  }

  lemma {:induction false} SumUpdate(s: seq<nat>, i: nat, v: nat)
    requires i < |s|
    ensures Sum(s[i := v]) + s[i] == Sum(s) + v
  {
    if i > 0 {
      assert s[i := v][1..] == s[1..][i - 1 := v];
      SumUpdate(s[1..], i - 1, v);
    } else {
      assert s[i := v][1..] == s[1..];
    }
  }

  lemma {:induction false} SumAppend(s: seq<nat>, v: nat)
    ensures Sum(s + [v]) == Sum(s) + v
  {
    if s == [] {
      assert s + [v] == [v];
    } else {
      assert (s + [v])[1..] == s[1..] + [v];
      SumAppend(s[1..], v);
    }
  }

  lemma {:induction false} NoDupCard<T>(s: seq<T>)
    requires NoDup(s)
    ensures |Elements(s)| == |s|
  {
    if s != [] {
      var n := |s| - 1;
      NoDupCard(s[..n]);
      assert forall x :: x in s <==> x in s[..n] || x == s[n];
      assert s[n] !in s[..n];
      assert Elements(s) == Elements(s[..n]) + {s[n]};
    } else {
      assert Elements(s) == {};
    }
  }

  /** The set of the first `n` naturals. */
  function Below(n: nat): (r: set<nat>)
    ensures forall k: nat :: k in r <==> k < n
    ensures |r| == n
  {
    if n == 0 then {} else Below(n - 1) + {n - 1}
  }

  lemma SubsetCard<T>(a: set<T>, b: set<T>)
    requires a <= b
    ensures |a| <= |b|
    ensures a != b ==> |a| < |b|
  {
    assert b == a + (b - a);
    if a != b {
      assert b - a != {};
    }
  }

  // ---------------------------------------------------------------------------------------------
  // Filtering, by positions.

  /** `at` lists, in increasing order, exactly the positions of `source` whose elements are kept. */
  predicate KeptAt<T>(at: seq<nat>, source: seq<T>, keep: T -> bool) {
    && (forall i, j :: 0 <= i < j < |at| ==> at[i] < at[j])
    && (forall i :: 0 <= i < |at| ==> at[i] < |source| && keep(source[at[i]]))
    && (forall k: nat :: k < |source| && keep(source[k]) ==> k in at)
  }

  /** `result` has the elements of `source` at the positions `at`. */
  ghost predicate Picks<T>(result: seq<T>, at: seq<nat>, source: seq<T>) {
    |at| == |result| && forall i :: 0 <= i < |at| ==> at[i] < |source| && result[i] == source[at[i]]
  }

  /** `result` has the kept elements of `source` and no others, each occurrence once and in the same order. */
  ghost predicate Filtered<T>(result: seq<T>, source: seq<T>, keep: T -> bool) {
    exists at: seq<nat> :: Picks(result, at, source) && KeptAt(at, source, keep)
  }

  lemma NothingFiltered<T>(keep: T -> bool)
    ensures Filtered([], [], keep)
  {
    var at: seq<nat> := [];
    assert KeptAt(at, [], keep) && Picks<T>([], at, []);
  }

  lemma KeptAtStep<T>(at: seq<nat>, source: seq<T>, keep: T -> bool, x: T)
    requires KeptAt(at, source, keep)
    ensures KeptAt(if keep(x) then at + [|source|] else at, source + [x], keep)
  {
    var at', source' := if keep(x) then at + [|source|] else at, source + [x];
    forall k: nat | k < |source'| && keep(source'[k])
      ensures k in at'
    {
      if k < |source| {
        assert source'[k] == source[k];
        assert k in at;
      } else {
        assert at'[|at|] == k;
      }
    }
  }

  lemma PicksStep<T>(result: seq<T>, at: seq<nat>, source: seq<T>, x: T)
    requires Picks(result, at, source)
    ensures Picks(result, at, source + [x]) && Picks(result + [x], at + [|source|], source + [x])
  {
  }

  lemma FilteredStep<T>(result: seq<T>, source: seq<T>, keep: T -> bool, x: T)
    requires Filtered(result, source, keep)
    ensures Filtered(result + (if keep(x) then [x] else []), source + [x], keep)
  {
    hide KeptAt, Picks;
    var at: seq<nat> :| Picks(result, at, source) && KeptAt(at, source, keep);
    KeptAtStep(at, source, keep, x);
    PicksStep(result, at, source, x);
    if !keep(x) {
      assert result + [] == result;
    }
  }

  /** A filtered list has exactly the kept elements. */
  lemma FilteredElements<T>(result: seq<T>, source: seq<T>, keep: T -> bool, x: T)
    requires Filtered(result, source, keep)
    ensures x in result <==> x in source && keep(x)
  {
    var at: seq<nat> :| Picks(result, at, source) && KeptAt(at, source, keep);
    if x in source && keep(x) {
      var k :| 0 <= k < |source| && source[k] == x;
      assert k in at;
      var j :| 0 <= j < |at| && at[j] == k;
      assert result[j] == x;
    }
  }
}
