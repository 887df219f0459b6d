/**
 * Admission of work groups: what a list of systems may claim, and which groups may be registered
 * together. The owner and reader indexes stand for a check against every registered group.
 */
module Admission {
  import opened Prelude
  import opened Commands
  import opened WorkGroups

  datatype RegistrationError =
    | EmptyID
    | AlreadyRegistered(id: WorkGroupID)
    | AsyncSystemNotAllowed(system: string)
    | AsyncWritesNotSupported(system: string)
    | AsyncResourceWritesNotSupported(system: string, resource: string)
    | DuplicateWriteAccess(component: ComponentType)
    | DuplicateResourceWriteAccess(resource: string)

  // ---------------------------------------------------------------------------------------------
  // Claims within one group.

  /** The component types the systems declare for writing, one after another. */
  function ComponentClaims(systems: seq<System>): seq<ComponentType> {
    if systems == [] then []
    else ComponentClaims(systems[..|systems| - 1]) + systems[|systems| - 1].desc.componentWrites
  }

  /** The names in a list of resource accesses: of the writes only, or of all. Empty names do not count. */
  function Names(resources: seq<ResourceAccess>, writesOnly: bool): seq<string> {
    if resources == [] then []
    else
      var r := resources[|resources| - 1];
      Names(resources[..|resources| - 1], writesOnly) +
      if r.name != "" && (r.write || !writesOnly) then [r.name] else []
  }

  function ResourceClaims(systems: seq<System>): seq<string> {
    if systems == [] then []
    else ResourceClaims(systems[..|systems| - 1]) + Names(systems[|systems| - 1].desc.resources, true)
  }

  predicate DeclaresWrite(desc: Descriptor) {
    desc.componentWrites != [] || exists r :: r in desc.resources && r.write
  }

  /** What the systems of an async group may declare. */
  predicate AsyncFit(systems: seq<System>) {
    forall sys :: sys in systems ==> sys.desc.asyncAllowed && !DeclaresWrite(sys.desc)
  }

  predicate Admissible(mode: Mode, systems: seq<System>) {
    (mode.Async? ==> AsyncFit(systems)) && NoDup(ComponentClaims(systems)) && NoDup(ResourceClaims(systems))
  }

  /** Exactly the declared unions; a resource that is written counts as read too. */
  function Declared(systems: seq<System>): Access {
    Access(set sys, c | sys in systems && c in sys.desc.componentReads :: c,
           Elements(ComponentClaims(systems)),
           set sys, n | sys in systems && n in Names(sys.desc.resources, false) :: n,
           Elements(ResourceClaims(systems)))
  }

  /** The error names a violation that is there. */
  ghost predicate Justified(mode: Mode, systems: seq<System>, e: RegistrationError) {
    match e
    case AsyncSystemNotAllowed(_) => mode.Async? && exists sys :: sys in systems && !sys.desc.asyncAllowed
    case AsyncWritesNotSupported(_) => mode.Async? && exists sys :: sys in systems && sys.desc.componentWrites != []
    case AsyncResourceWritesNotSupported(_, n) =>
      mode.Async? && exists sys, r :: sys in systems && r in sys.desc.resources && r.write && r.name == n
    case DuplicateWriteAccess(c) => Twice(ComponentClaims(systems), c)
    case DuplicateResourceWriteAccess(n) => Twice(ResourceClaims(systems), n)
    case _ => false
  }

  ghost predicate Twice<T(!new)>(s: seq<T>, x: T) {
    exists i, j :: 0 <= i < j < |s| && s[i] == x && s[j] == x
  }

  function DisplayName(desc: Descriptor): string {
    if desc.name == "" then "<unnamed>" else desc.name
  }

  method CheckAsync(sys: System) returns (err: Option<RegistrationError>)
    ensures err.None? <==> AsyncFit([sys])
    ensures err.Some? ==> Justified(Async, [sys], err.value)
  {
    var desc := sys.desc;
    assert sys in [sys];
    if !desc.asyncAllowed {
      return Some(AsyncSystemNotAllowed(DisplayName(desc)));
    }
    if |desc.componentWrites| > 0 {
      return Some(AsyncWritesNotSupported(DisplayName(desc)));
    }
    var i := 0;
    while i < |desc.resources|
      invariant 0 <= i <= |desc.resources|
      invariant forall k :: 0 <= k < i ==> !desc.resources[k].write
    {
      var res := desc.resources[i];
      if res.write {
        return Some(AsyncResourceWritesNotSupported(DisplayName(desc), res.name));
      }
      i := i + 1;
    }
    err := None;
  }

  /** Claims the components a system writes, unless one is claimed already. */
  method ClaimComponents(list: seq<ComponentType>, owned: set<ComponentType>)
    returns (writes: set<ComponentType>, dup: Option<ComponentType>)
    ensures dup.None? <==> NoDup(list) && Elements(list) !! owned
    ensures dup.None? ==> writes == owned + Elements(list)
    ensures dup.Some? ==> Twice(list, dup.value) || (dup.value in list && dup.value in owned)
  {
    writes := owned;
    var seenLocal := {};
    var i := 0;
    while i < |list|
      invariant 0 <= i <= |list|
      invariant seenLocal == Elements(list[..i]) && writes == owned + seenLocal
      invariant NoDup(list[..i]) && seenLocal !! owned
    {
      var comp := list[i];
      if comp in seenLocal {
        var k :| 0 <= k < i && list[..i][k] == comp;
        assert list[k] == comp && list[i] == comp;
        return writes, Some(comp);
      }
      seenLocal := seenLocal + {comp};
      if comp in writes {
        assert comp in Elements(list);
        return writes, Some(comp);
      }
      writes := writes + {comp};
      ExtendNoDup(list, i);
      i := i + 1;
    }
    assert list[..i] == list;
    dup := None;
  }

  lemma ExtendNoDup<T>(list: seq<T>, i: nat)
    requires i < |list|
    ensures Elements(list[..i + 1]) == Elements(list[..i]) + {list[i]}
    ensures NoDup(list[..i + 1]) <==> NoDup(list[..i]) && list[i] !in list[..i]
  {
    assert list[..i + 1] == list[..i] + [list[i]];
    if !NoDup(list[..i]) {
      var a, b :| 0 <= a < b < i && list[..i][a] == list[..i][b];
      assert list[..i + 1][a] == list[..i + 1][b];
    } else if list[i] in list[..i] {
      var a :| 0 <= a < i && list[..i][a] == list[i];
      assert list[..i + 1][a] == list[..i + 1][i];
    } else {
      assert forall a, b :: 0 <= a < b < i ==> list[..i][a] != list[..i][b];
    }
  }

  /** Claims the resources a system writes and records all it accesses. */
  method ClaimResources(list: seq<ResourceAccess>, read: set<string>, owned: set<string>)
    returns (reads': set<string>, writes: set<string>, dup: Option<string>)
    ensures dup.None? <==> NoDup(Names(list, true)) && Elements(Names(list, true)) !! owned
    ensures dup.None? ==> writes == owned + Elements(Names(list, true))
    ensures dup.None? ==> reads' == read + Elements(Names(list, false))
    ensures dup.Some? ==>
      Twice(Names(list, true), dup.value) || (dup.value in Names(list, true) && dup.value in owned)
  {
    reads', writes := read, owned;
    var seenLocal := {};
    var i := 0;
    while i < |list|
      invariant 0 <= i <= |list|
      invariant seenLocal == Elements(Names(list[..i], true)) && writes == owned + seenLocal
      invariant NoDup(Names(list[..i], true)) && seenLocal !! owned
      invariant reads' == read + Elements(Names(list[..i], false))
    {
      var res := list[i];
      NamesStep(list, i);
      if res.name == "" {
        i := i + 1;
        continue;
      }
      if res.write {
        if res.name in seenLocal || res.name in writes {
          NamesPrefix(list, i + 1, true);
          StillTwice(Names(list[..i], true), res.name, Names(list, true));
          return reads', writes, Some(res.name);
        }
        seenLocal := seenLocal + {res.name};
        writes := writes + {res.name};
      }
      reads' := reads' + {res.name};
      i := i + 1;
    }
    assert list[..i] == list;
    dup := None;
  }

  lemma NamesStep(list: seq<ResourceAccess>, i: nat)
    requires i < |list|
    ensures forall w ::
      Names(list[..i + 1], w) ==
        Names(list[..i], w) + if list[i].name != "" && (list[i].write || !w) then [list[i].name] else []
    ensures forall w :: list[i].name != "" && (list[i].write || !w) ==>
      && Elements(Names(list[..i + 1], w)) == Elements(Names(list[..i], w)) + {list[i].name}
      && (NoDup(Names(list[..i + 1], w)) <==>
            NoDup(Names(list[..i], w)) && list[i].name !in Names(list[..i], w))
  {
    assert list[..i + 1][..i] == list[..i];
    forall w | list[i].name != "" && (list[i].write || !w)
      ensures Elements(Names(list[..i + 1], w)) == Elements(Names(list[..i], w)) + {list[i].name}
      ensures NoDup(Names(list[..i + 1], w)) <==>
            NoDup(Names(list[..i], w)) && list[i].name !in Names(list[..i], w)
    {
      var longer := Names(list[..i + 1], w);
      assert longer[..|longer| - 1] == Names(list[..i], w) && longer[..|longer|] == longer;
      ExtendNoDup(longer, |longer| - 1);
    }
  }

  lemma {:induction false} NamesPrefix(list: seq<ResourceAccess>, i: nat, w: bool)
    requires i <= |list|
    ensures Names(list[..i], w) <= Names(list, w)
    decreases |list|
  {
    if i == |list| {
      assert list[..i] == list;
    } else {
      NamesPrefix(list[..|list| - 1], i, w);
      assert list[..|list| - 1][..i] == list[..i];
    }
  }

  /** A name repeated right after a prefix occurs twice, or was owned before. */
  lemma StillTwice<T(!new)>(prefix: seq<T>, x: T, all: seq<T>)
    requires prefix + [x] <= all
    ensures x in all
    ensures x in prefix ==> Twice(all, x)
  {
    assert all[|prefix|] == x;
    if x in prefix {
      var k :| 0 <= k < |prefix| && prefix[k] == x;
      assert all[k] == x;
    }
  }

  /** What has been gathered from the systems so far. */
  ghost predicate Gathered(mode: Mode, systems: seq<System>, access: Access) {
    Admissible(mode, systems) && access == Declared(systems)
  }

  lemma GatherNone(mode: Mode)
    ensures Gathered(mode, [], Access({}, {}, {}, {}))
  {
  }

  lemma GatherOne(mode: Mode, systems: seq<System>, sys: System)
    ensures Admissible(mode, systems + [sys]) <==>
      && Admissible(mode, systems)
      && (mode.Async? ==> AsyncFit([sys]))
      && NoDup(sys.desc.componentWrites) && Elements(sys.desc.componentWrites) !! Declared(systems).componentWrites
      && NoDup(Names(sys.desc.resources, true))
      && Elements(Names(sys.desc.resources, true)) !! Declared(systems).resourceWrites
    ensures var d, d' := Declared(systems), Declared(systems + [sys]);
      d' == Access(d.componentReads + Elements(sys.desc.componentReads),
                   d.componentWrites + Elements(sys.desc.componentWrites),
                   d.resourceReads + Elements(Names(sys.desc.resources, false)),
                   d.resourceWrites + Elements(Names(sys.desc.resources, true)))
  {
    var more := systems + [sys];
    assert more[..|more| - 1] == systems;
    assert forall s :: s in more <==> s in systems || s == sys;
    NoDupConcat(ComponentClaims(systems), sys.desc.componentWrites);
    NoDupConcat(ResourceClaims(systems), Names(sys.desc.resources, true));
    DeclaredReads(systems, sys);
    hide ComponentClaims, ResourceClaims, Names;
    assert AsyncFit(more) <==> AsyncFit(systems) && AsyncFit([sys]);
  }

  lemma DeclaredReads(systems: seq<System>, sys: System)
    ensures Declared(systems + [sys]).componentReads
         == Declared(systems).componentReads + Elements(sys.desc.componentReads)
    ensures Declared(systems + [sys]).resourceReads
         == Declared(systems).resourceReads + Elements(Names(sys.desc.resources, false))
  {
    hide ComponentClaims, ResourceClaims, Names;
    assert forall s :: s in systems + [sys] <==> s in systems || s == sys;
  }

  lemma NoDupConcat<T>(a: seq<T>, b: seq<T>)
    ensures NoDup(a + b) <==> NoDup(a) && NoDup(b) && Elements(a) !! Elements(b)
    ensures Elements(a + b) == Elements(a) + Elements(b)
  {
    if NoDup(a + b) {
      forall i, j | 0 <= i < j < |a| ensures a[i] != a[j] {
        assert (a + b)[i] != (a + b)[j];
      }
      forall i, j | 0 <= i < j < |b| ensures b[i] != b[j] {
        assert (a + b)[|a| + i] != (a + b)[|a| + j];
      }
      forall i, j | 0 <= i < |a| && 0 <= j < |b| ensures a[i] != b[j] {
        assert (a + b)[i] != (a + b)[|a| + j];
      }
    } else {
      var i, j :| 0 <= i < j < |a + b| && (a + b)[i] == (a + b)[j];
      if i < |a| <= j {
        assert a[i] in Elements(a) && b[j - |a|] in Elements(b);
      }
    }
  }

  /** Claims of a prefix of the systems are claims of all of them. */
  lemma {:induction false} ClaimsPrefix(systems: seq<System>, i: nat)
    requires i <= |systems|
    ensures ComponentClaims(systems[..i]) <= ComponentClaims(systems)
    ensures ResourceClaims(systems[..i]) <= ResourceClaims(systems)
    decreases |systems|
  {
    if i == |systems| {
      assert systems[..i] == systems;
    } else {
      ClaimsPrefix(systems[..|systems| - 1], i);
      assert systems[..|systems| - 1][..i] == systems[..i];
    }
  }

  /** A prefix that is not admissible makes the whole list inadmissible. */
  lemma {:induction false} AdmissiblePrefix(mode: Mode, systems: seq<System>, i: nat)
    requires i <= |systems| && Admissible(mode, systems)
    ensures Admissible(mode, systems[..i])
    decreases |systems|
  {
    if i == |systems| {
      assert systems[..i] == systems;
    } else {
      var init := systems[..|systems| - 1];
      assert init + [systems[|systems| - 1]] == systems;
      GatherOne(mode, init, systems[|systems| - 1]);
      AdmissiblePrefix(mode, init, i);
      assert init[..i] == systems[..i];
    }
  }

  lemma TwiceInConcat<T(!new)>(a: seq<T>, b: seq<T>, x: T, all: seq<T>)
    requires a + b <= all
    requires Twice(b, x) || (x in b && x in a)
    ensures Twice(all, x)
  {
    if Twice(b, x) {
      var i, j :| 0 <= i < j < |b| && b[i] == x && b[j] == x;
      assert all[|a| + i] == x && all[|a| + j] == x;
    } else {
      var i :| 0 <= i < |a| && a[i] == x;
      var j :| 0 <= j < |b| && b[j] == x;
      assert all[i] == x && all[|a| + j] == x;
    }
  }

  /** A rejection of system `i` is a rejection of the list. */
  lemma RejectSystem(mode: Mode, systems: seq<System>, i: nat, e: RegistrationError)
    requires i < |systems|
    requires
      || (mode.Async? && Justified(Async, [systems[i]], e))
      || (e.DuplicateWriteAccess? &&
            (Twice(systems[i].desc.componentWrites, e.component) ||
             (e.component in systems[i].desc.componentWrites && e.component in ComponentClaims(systems[..i]))))
      || (e.DuplicateResourceWriteAccess? &&
            (Twice(Names(systems[i].desc.resources, true), e.resource) ||
             (e.resource in Names(systems[i].desc.resources, true) && e.resource in ResourceClaims(systems[..i]))))
    ensures Justified(mode, systems, e)
  {
    assert systems[i] in systems;
    assert systems[..i + 1][..i] == systems[..i];
    ClaimsPrefix(systems, i + 1);
    if e.DuplicateWriteAccess? {
      OneSystemClaims(systems[i]);
      TwiceInConcat(ComponentClaims(systems[..i]), systems[i].desc.componentWrites, e.component, ComponentClaims(systems));
    } else if e.DuplicateResourceWriteAccess? {
      OneSystemClaims(systems[i]);
      TwiceInConcat(ResourceClaims(systems[..i]), Names(systems[i].desc.resources, true), e.resource,
                    ResourceClaims(systems));
    }
  }

  lemma OneSystemClaims(sys: System)
    ensures ComponentClaims([sys]) == sys.desc.componentWrites
    ensures ResourceClaims([sys]) == Names(sys.desc.resources, true)
  {
    assert [sys][..0] == [];
  }

  /**
   * Succeeds exactly when no component and no non-empty resource name is claimed for writing
   * twice and, for an async group, every system allows it and declares no write. The sets
   * returned are then exactly the declared unions.
   */
  method ValidateSystemsAccess(mode: Mode, systems: seq<System>) returns (r: Result<Access, RegistrationError>)
    ensures r.Ok? <==> Admissible(mode, systems)
    ensures r.Ok? ==> r.value == Declared(systems)
    ensures r.Err? ==> Justified(mode, systems, r.error)
  {
    hide *;
    var access := Access({}, {}, {}, {});
    GatherNone(mode);
    assert systems[..0] == [];
    var i := 0;
    while i < |systems|
      invariant 0 <= i <= |systems| && Gathered(mode, systems[..i], access)
    {
      var sys := systems[i];
      GatherStep(mode, systems, i, access);
      if mode == Async {
        var refused := CheckAsync(sys);
        if refused.Some? {
          RejectSystem(mode, systems, i, refused.value);
          return Err(refused.value);
        }
      }
      var reads' := access.componentReads + Elements(sys.desc.componentReads);
      var writes, dup := ClaimComponents(sys.desc.componentWrites, access.componentWrites);
      if dup.Some? {
        RejectSystem(mode, systems, i, DuplicateWriteAccess(dup.value));
        return Err(DuplicateWriteAccess(dup.value));
      }
      var resourceReads, resourceWrites, dupRes :=
        ClaimResources(sys.desc.resources, access.resourceReads, access.resourceWrites);
      if dupRes.Some? {
        RejectSystem(mode, systems, i, DuplicateResourceWriteAccess(dupRes.value));
        return Err(DuplicateResourceWriteAccess(dupRes.value));
      }
      access := Access(reads', writes, resourceReads, resourceWrites);
      i := i + 1;
    }
    assert systems[..i] == systems;
    GatherEnd(mode, systems, access);
    return Ok(access);
  }

  lemma GatherEnd(mode: Mode, systems: seq<System>, access: Access)
    requires Gathered(mode, systems, access)
    ensures Admissible(mode, systems) && access == Declared(systems)
  {
  }

  /** The turn of system `i`: it is accepted exactly when its three checks pass. */
  lemma GatherStep(mode: Mode, systems: seq<System>, i: nat, access: Access)
    requires i < |systems| && Gathered(mode, systems[..i], access)
    ensures var d := systems[i].desc;
      && (forall c :: c in access.componentWrites ==> c in ComponentClaims(systems[..i]))
      && (forall n :: n in access.resourceWrites ==> n in ResourceClaims(systems[..i]))
      && (if (mode.Async? ==> AsyncFit([systems[i]]))
             && NoDup(d.componentWrites) && Elements(d.componentWrites) !! access.componentWrites
             && NoDup(Names(d.resources, true)) && Elements(Names(d.resources, true)) !! access.resourceWrites
          then Gathered(mode, systems[..i + 1],
                        Access(access.componentReads + Elements(d.componentReads),
                               access.componentWrites + Elements(d.componentWrites),
                               access.resourceReads + Elements(Names(d.resources, false)),
                               access.resourceWrites + Elements(Names(d.resources, true))))
          else !Admissible(mode, systems))
  {
    assert systems[..i + 1] == systems[..i] + [systems[i]];
    GatherOne(mode, systems[..i], systems[i]);
    if Admissible(mode, systems) {
      AdmissiblePrefix(mode, systems, i + 1);
    }
    hide Names, ComponentClaims, ResourceClaims, AsyncFit, NoDup;
  }

  /** Resources a group writes are among those it reads. */
  lemma {:induction false} WritesAreReads(systems: seq<System>)
    ensures Declared(systems).resourceWrites <= Declared(systems).resourceReads
  {
    forall n | n in ResourceClaims(systems) ensures n in Declared(systems).resourceReads {
      var sys := ClaimantOf(systems, n);
      WriteIsAccess(sys.desc.resources, n);
    }
  }

  lemma {:induction false} ClaimantOf(systems: seq<System>, n: string) returns (sys: System)
    requires n in ResourceClaims(systems)
    ensures sys in systems && n in Names(sys.desc.resources, true)
  {
    var last := |systems| - 1;
    if n in Names(systems[last].desc.resources, true) {
      sys := systems[last];
    } else {
      sys := ClaimantOf(systems[..last], n);
    }
  }

  lemma {:induction false} WriteIsAccess(list: seq<ResourceAccess>, n: string)
    requires n in Names(list, true)
    ensures n in Names(list, false)
  {
    if n in Names(list[..|list| - 1], true) {
      WriteIsAccess(list[..|list| - 1], n);
    }
  }

  // ---------------------------------------------------------------------------------------------
  // Claims across groups.

  /** Two groups may be registered together. */
  predicate Compatible(a: Access, b: Access) {
    && a.componentWrites !! b.componentWrites
    && a.resourceWrites !! b.resourceWrites
    && a.resourceWrites !! b.resourceReads
    && b.resourceWrites !! a.resourceReads
  }

  ghost predicate PairwiseCompatible(groups: map<WorkGroupID, WorkGroup>) {
    forall id, other :: id in groups && other in groups && id != other ==>
      Compatible(groups[id].access, groups[other].access)
  }

  /** Who writes each component and resource, and who reads each resource. */
  datatype Index = Index(componentOwners: map<ComponentType, WorkGroupID>,
                         resourceOwners: map<string, WorkGroupID>,
                         resourceReaders: map<string, set<WorkGroupID>>)

  /** Async groups are admitted only without writes. */
  ghost predicate AsyncOnlyRead(groups: map<WorkGroupID, WorkGroup>) {
    forall id :: id in groups && groups[id].mode.Async? ==> ReadsOnly(groups[id].access)
  }

  predicate ReadsOnly(access: Access) {
    access.componentWrites == {} && access.resourceWrites == {}
  }

  /** What validation admits for an async group declares no write of any kind. */
  lemma {:induction false} AsyncDeclaresNoWrites(systems: seq<System>)
    requires Admissible(Async, systems)
    ensures ReadsOnly(Declared(systems))
    decreases |systems|
  {
    if systems == [] {
      assert Elements<ComponentType>([]) == {} && Elements<string>([]) == {};
    } else {
      var init, sys := systems[..|systems| - 1], systems[|systems| - 1];
      assert init + [sys] == systems;
      GatherOne(Async, init, sys);
      AsyncDeclaresNoWrites(init);
      NoWriteClaims(sys);
      hide Admissible, Declared;
    }
  }

  lemma NoWriteClaims(sys: System)
    requires AsyncFit([sys])
    ensures Elements(sys.desc.componentWrites) == {} && Elements(Names(sys.desc.resources, true)) == {}
  {
    NoWriteNames(sys.desc.resources);
  }

  lemma {:induction false} NoWriteNames(resources: seq<ResourceAccess>)
    requires forall r :: r in resources ==> !r.write
    ensures Names(resources, true) == []
  {
    if resources != [] {
      NoWriteNames(resources[..|resources| - 1]);
    }
  }

  predicate Owns<K(==)>(owners: map<K, WorkGroupID>, k: K, id: WorkGroupID) {
    k in owners && owners[k] == id
  }

  predicate Reads(readers: map<string, set<WorkGroupID>>, n: string, id: WorkGroupID) {
    n in readers && id in readers[n]
  }

  /** The index is what recomputing it from all groups gives. */
  ghost predicate Indexes(ix: Index, groups: map<WorkGroupID, WorkGroup>) {
    && (forall c, id :: Owns(ix.componentOwners, c, id) <==> id in groups && c in groups[id].access.componentWrites)
    && (forall n, id :: Owns(ix.resourceOwners, n, id) <==> id in groups && n in groups[id].access.resourceWrites)
    && (forall n, id :: Reads(ix.resourceReaders, n, id) <==> id in groups && n in groups[id].access.resourceReads)
  }

  /** The new group claims something the named registered group excludes. */
  predicate Clashes(ix: Index, id: WorkGroupID, access: Access) {
    || (exists c :: c in access.componentWrites && c in ix.componentOwners && ix.componentOwners[c] != id)
    || (exists n :: n in access.resourceWrites && n in ix.resourceOwners && ix.resourceOwners[n] != id)
    || (exists n :: n in access.resourceWrites && n in ix.resourceReaders &&
          exists reader :: reader in ix.resourceReaders[n] && reader != id)
    || (exists n :: n in access.resourceReads && n in ix.resourceOwners && ix.resourceOwners[n] != id)
  }

  /** The indexed check rejects exactly when the check against every registered group would. */
  lemma ClashesIffIncompatible(ix: Index, groups: map<WorkGroupID, WorkGroup>, id: WorkGroupID, access: Access)
    requires Indexes(ix, groups) && id !in groups
    ensures Clashes(ix, id, access) <==> exists other :: other in groups && !Compatible(groups[other].access, access)
  {
    if exists other :: other in groups && !Compatible(groups[other].access, access) {
      var other :| other in groups && !Compatible(groups[other].access, access);
      var o := groups[other].access;
      if c :| c in o.componentWrites && c in access.componentWrites {
        assert Owns(ix.componentOwners, c, other);
      } else if n :| n in o.resourceWrites && n in access.resourceWrites {
        assert Owns(ix.resourceOwners, n, other);
      } else if n :| n in o.resourceWrites && n in access.resourceReads {
        assert Owns(ix.resourceOwners, n, other);
      } else {
        var n :| n in access.resourceWrites && n in o.resourceReads;
        assert Reads(ix.resourceReaders, n, other);
      }
    }
    if Clashes(ix, id, access) {
      ClashNamesGroup(ix, groups, id, access);
    }
  }

  lemma ClashNamesGroup(ix: Index, groups: map<WorkGroupID, WorkGroup>, id: WorkGroupID, access: Access)
    requires Indexes(ix, groups) && id !in groups && Clashes(ix, id, access)
    ensures exists other :: other in groups && !Compatible(groups[other].access, access)
  {
    if c :| c in access.componentWrites && c in ix.componentOwners {
      assert Owns(ix.componentOwners, c, ix.componentOwners[c]);
      assert !Compatible(groups[ix.componentOwners[c]].access, access);
    } else if n :| n in access.resourceWrites && n in ix.resourceOwners {
      assert Owns(ix.resourceOwners, n, ix.resourceOwners[n]);
      assert !Compatible(groups[ix.resourceOwners[n]].access, access);
    } else if n :| n in access.resourceReads && n in ix.resourceOwners {
      assert Owns(ix.resourceOwners, n, ix.resourceOwners[n]);
      assert !Compatible(groups[ix.resourceOwners[n]].access, access);
    } else {
      var n, reader :| n in access.resourceWrites && n in ix.resourceReaders && reader in ix.resourceReaders[n];
      assert Reads(ix.resourceReaders, n, reader);
      assert !Compatible(groups[reader].access, access);
    }
  }

  /** A conflict error names something the new group claims and a registered group excludes. */
  ghost predicate ConflictShown(ix: Index, access: Access, e: RegistrationError) {
    match e
    case DuplicateWriteAccess(c) => c in access.componentWrites && c in ix.componentOwners
    case DuplicateResourceWriteAccess(n) =>
      || (n in access.resourceWrites && (n in ix.resourceOwners || n in ix.resourceReaders))
      || (n in access.resourceReads && n in ix.resourceOwners)
    case _ => false
  }

  /** The indexed check, in any iteration order of the sets. */
  method CheckCrossGroupConflicts(ix: Index, id: WorkGroupID, access: Access) returns (err: Option<RegistrationError>)
    ensures err.Some? <==> Clashes(ix, id, access)
    ensures err.Some? ==> ConflictShown(ix, access, err.value)
  {
    var components := access.componentWrites;
    while components != {}
      invariant components <= access.componentWrites
      invariant forall c :: c in access.componentWrites && c !in components ==>
        !(c in ix.componentOwners && ix.componentOwners[c] != id)
      decreases components
    {
      var comp :| comp in components;
      if comp in ix.componentOwners && ix.componentOwners[comp] != id {
        return Some(DuplicateWriteAccess(comp));
      }
      components := components - {comp};
    }
    err := CheckResourceWrites(ix, id, access);
    if err.Some? {
      return;
    }
    var resources := access.resourceReads;
    while resources != {}
      invariant resources <= access.resourceReads
      invariant forall n :: n in access.resourceReads && n !in resources ==>
        !(n in ix.resourceOwners && ix.resourceOwners[n] != id)
      decreases resources
    {
      var res :| res in resources;
      if res in ix.resourceOwners && ix.resourceOwners[res] != id {
        return Some(DuplicateResourceWriteAccess(res));
      }
      resources := resources - {res};
    }
    err := None;
  }

  method CheckResourceWrites(ix: Index, id: WorkGroupID, access: Access) returns (err: Option<RegistrationError>)
    ensures err.None? ==> forall n :: n in access.resourceWrites ==>
      && !(n in ix.resourceOwners && ix.resourceOwners[n] != id)
      && !(n in ix.resourceReaders && exists reader :: reader in ix.resourceReaders[n] && reader != id)
    ensures err.Some? ==> Clashes(ix, id, access) && ConflictShown(ix, access, err.value)
  {
    var resources := access.resourceWrites;
    while resources != {}
      invariant resources <= access.resourceWrites
      invariant forall n :: n in access.resourceWrites && n !in resources ==>
        && !(n in ix.resourceOwners && ix.resourceOwners[n] != id)
        && !(n in ix.resourceReaders && exists reader :: reader in ix.resourceReaders[n] && reader != id)
      decreases resources
    {
      var res :| res in resources;
      if res in ix.resourceOwners && ix.resourceOwners[res] != id {
        return Some(DuplicateResourceWriteAccess(res));
      }
      if res in ix.resourceReaders {
        var readers := ix.resourceReaders[res];
        while readers != {}
          invariant readers <= ix.resourceReaders[res]
          invariant forall r :: r in ix.resourceReaders[res] && r !in readers ==> r == id
          decreases readers
        {
          var reader :| reader in readers;
          if reader != id {
            return Some(DuplicateResourceWriteAccess(res));
          }
          readers := readers - {reader};
        }
      }
      resources := resources - {res};
    }
    err := None;
  }

  /** `id` has been added to the readers of each of the `names`, and nothing else. */
  ghost predicate Entered(readers: map<string, set<WorkGroupID>>, readers': map<string, set<WorkGroupID>>,
                          id: WorkGroupID, names: set<string>)
  {
    forall n, r :: Reads(readers', n, r) <==> Reads(readers, n, r) || (n in names && r == id)
  }

  /** Enters an admitted group into the index. */
  method RecordAccess(ix: Index, id: WorkGroupID, access: Access) returns (ix': Index)
    ensures ix'.componentOwners == ix.componentOwners + map c | c in access.componentWrites :: id
    ensures ix'.resourceOwners == ix.resourceOwners + map n | n in access.resourceWrites :: id
    ensures Entered(ix.resourceReaders, ix'.resourceReaders, id, access.resourceReads)
  {
    var owners := RecordOwner(ix.componentOwners, id, access.componentWrites);
    var resOwners := RecordOwner(ix.resourceOwners, id, access.resourceWrites);
    var readers := RecordReaders(ix.resourceReaders, id, access.resourceReads);
    ix' := Index(owners, resOwners, readers);
  }

  method RecordOwner<K(==)>(owners: map<K, WorkGroupID>, id: WorkGroupID, keys: set<K>)
    returns (owners': map<K, WorkGroupID>)
    ensures owners' == owners + map k | k in keys :: id
  {
    owners' := owners;
    var todo := keys;
    while todo != {}
      invariant todo <= keys
      invariant owners' == owners + map k | k in keys - todo :: id
      decreases todo
    {
      var k :| k in todo;
      owners' := owners'[k := id];
      todo := todo - {k};
    }
  }

  lemma EnterOne(readers: map<string, set<WorkGroupID>>, mid: map<string, set<WorkGroupID>>, id: WorkGroupID,
                 names: set<string>, res: string)
    requires Entered(readers, mid, id, names)
    ensures Entered(readers, mid[res := (if res in mid then mid[res] else {}) + {id}], id, names + {res})
  {
    var after := mid[res := (if res in mid then mid[res] else {}) + {id}];
    forall n, r
      ensures Reads(after, n, r) <==> Reads(readers, n, r) || (n in names + {res} && r == id)
    {
      assert Reads(after, n, r) <==> Reads(mid, n, r) || (n == res && r == id);
    }
  }

  method RecordReaders(readers: map<string, set<WorkGroupID>>, id: WorkGroupID, names: set<string>)
    returns (readers': map<string, set<WorkGroupID>>)
    ensures Entered(readers, readers', id, names)
  {
    hide Entered;
    readers' := readers;
    var todo := names;
    NoneEntered(readers, id);
    assert names - todo == {};
    while todo != {}
      invariant todo <= names
      invariant Entered(readers, readers', id, names - todo)
      decreases todo
    {
      var res :| res in todo;
      EnterOne(readers, readers', id, names - todo, res);
      assert names - (todo - {res}) == names - todo + {res};
      ghost var after := readers'[res := (if res in readers' then readers'[res] else {}) + {id}];
      if res !in readers' {
        readers' := readers'[res := {}];
      }
      readers' := readers'[res := readers'[res] + {id}];
      assert readers' == after;
      todo := todo - {res};
    }
    assert names - todo == names;
  }

  lemma NoneEntered(readers: map<string, set<WorkGroupID>>, id: WorkGroupID)
    ensures Entered(readers, readers, id, {})
  {
  }

  /** Registering a group that does not clash keeps the index exact and the groups compatible. */
  lemma AdmissionKeepsInvariant(ix: Index, groups: map<WorkGroupID, WorkGroup>, g: WorkGroup, ix': Index)
    requires Indexes(ix, groups) && PairwiseCompatible(groups)
    requires g.id !in groups && !Clashes(ix, g.id, g.access)
    requires ix'.componentOwners == ix.componentOwners + map c | c in g.access.componentWrites :: g.id
    requires ix'.resourceOwners == ix.resourceOwners + map n | n in g.access.resourceWrites :: g.id
    requires Entered(ix.resourceReaders, ix'.resourceReaders, g.id, g.access.resourceReads)
    ensures Indexes(ix', groups[g.id := g]) && PairwiseCompatible(groups[g.id := g])
  {
    ClashesIffIncompatible(ix, groups, g.id, g.access);
    AdmittedIndex(ix, groups, g, ix');
  }

  lemma AdmittedIndex(ix: Index, groups: map<WorkGroupID, WorkGroup>, g: WorkGroup, ix': Index)
    requires Indexes(ix, groups) && g.id !in groups
    requires forall other :: other in groups ==> Compatible(groups[other].access, g.access)
    requires ix'.componentOwners == ix.componentOwners + map c | c in g.access.componentWrites :: g.id
    requires ix'.resourceOwners == ix.resourceOwners + map n | n in g.access.resourceWrites :: g.id
    requires Entered(ix.resourceReaders, ix'.resourceReaders, g.id, g.access.resourceReads)
    ensures Indexes(ix', groups[g.id := g])
  {
    var after := groups[g.id := g];
    forall c, id
      ensures Owns(ix'.componentOwners, c, id) <==> id in after && c in after[id].access.componentWrites
    {
      assert Owns(ix.componentOwners, c, id) <==> id in groups && c in groups[id].access.componentWrites;
    }
    forall n, id
      ensures Owns(ix'.resourceOwners, n, id) <==> id in after && n in after[id].access.resourceWrites
    {
      assert Owns(ix.resourceOwners, n, id) <==> id in groups && n in groups[id].access.resourceWrites;
    }
    forall n, id
      ensures Reads(ix'.resourceReaders, n, id) <==> id in after && n in after[id].access.resourceReads
    {
      assert Reads(ix.resourceReaders, n, id) <==> id in groups && n in groups[id].access.resourceReads;
    }
  }
}
