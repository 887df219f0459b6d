/**
 * What admission asks of a list of systems and what it records for them, said of the systems'
 * own declarations rather than of the lists of claims gathered from them.
 */
module Claims {
  import opened Prelude
  import opened Commands
  import opened WorkGroups
  import opened Admission

  /** The list writes no resource twice; accesses without a name do not count. */
  predicate NoRepeatedWrite(resources: seq<ResourceAccess>) {
    forall a, b :: 0 <= a < b < |resources| && resources[a].write && resources[b].write && resources[a].name != "" ==>
      resources[a].name != resources[b].name
  }

  predicate ComponentsApart(d: Descriptor, d': Descriptor) {
    forall c :: c in d.componentWrites ==> c !in d'.componentWrites
  }

  predicate ResourcesApart(d: Descriptor, d': Descriptor) {
    forall r, r' :: r in d.resources && r' in d'.resources && r.write && r'.write && r.name != "" ==> r.name != r'.name
  }

  /** No component type and no named resource is written by both. */
  predicate WriteApart(d: Descriptor, d': Descriptor) {
    ComponentsApart(d, d') && ResourcesApart(d, d')
  }

  /** No system writes anything twice, and no two systems write the same thing. */
  predicate WrittenOnce(systems: seq<System>) {
    && (forall i :: 0 <= i < |systems| ==>
          NoDup(systems[i].desc.componentWrites) && NoRepeatedWrite(systems[i].desc.resources))
    && (forall i, j :: 0 <= i < j < |systems| ==> WriteApart(systems[i].desc, systems[j].desc))
  }

  /** The names of a list of accesses, by membership. */
  lemma {:induction false} NamesMean(list: seq<ResourceAccess>, writesOnly: bool, n: string)
    ensures n in Names(list, writesOnly) <==>
      n != "" && exists r :: r in list && r.name == n && (r.write || !writesOnly)
  {
    if list != [] {
      var last := |list| - 1;
      NamesMean(list[..last], writesOnly, n);
      assert list == list[..last] + [list[last]];
      assert forall r :: r in list <==> r in list[..last] || r == list[last];
      hide Names;
      NamesGrow(list, writesOnly, n);
    }
  }

  lemma NamesGrow(list: seq<ResourceAccess>, writesOnly: bool, n: string)
    requires list != []
    ensures var last := list[|list| - 1];
      n in Names(list, writesOnly) <==>
        n in Names(list[..|list| - 1], writesOnly) || (last.name == n && n != "" && (last.write || !writesOnly))
  {
  }

  lemma {:induction false} NamesRepeat(list: seq<ResourceAccess>)
    ensures NoDup(Names(list, true)) <==> NoRepeatedWrite(list)
  {
    if list != [] {
      var n := |list| - 1;
      var init, last := list[..n], list[n];
      NamesRepeat(init);
      NamesMean(init, true, last.name);
      NamesStep(list, n);
      assert list[..n + 1] == list;
      hide Names;
      if last.name != "" && last.write {
        assert NoRepeatedWrite(list) <==> NoRepeatedWrite(init) && last.name !in Names(init, true) by {
          assert forall k :: 0 <= k < n ==> init[k] == list[k];
        }
      } else {
        assert Names(list, true) == Names(init, true);
        assert forall k :: 0 <= k < n ==> init[k] == list[k];
      }
    }
  }

  lemma {:induction false} ComponentClaimsMean(systems: seq<System>, c: ComponentType)
    ensures c in ComponentClaims(systems) <==> exists sys :: sys in systems && c in sys.desc.componentWrites
  {
    if systems != [] {
      var n := |systems| - 1;
      ComponentClaimsMean(systems[..n], c);
      assert forall sys :: sys in systems <==> sys in systems[..n] || sys == systems[n];
    }
  }

  lemma {:induction false} ResourceClaimsMean(systems: seq<System>, name: string)
    ensures name in ResourceClaims(systems) <==> exists sys :: sys in systems && name in Names(sys.desc.resources, true)
  {
    if systems != [] {
      var n := |systems| - 1;
      ResourceClaimsMean(systems[..n], name);
      assert forall sys :: sys in systems <==> sys in systems[..n] || sys == systems[n];
    }
  }

  /** What is recorded for a group, by membership: the unions of what its systems declare. */
  lemma DeclaredMeans(systems: seq<System>, c: ComponentType, n: string)
    ensures var access := Declared(systems);
      && (c in access.componentReads <==> exists sys :: sys in systems && c in sys.desc.componentReads)
      && (c in access.componentWrites <==> exists sys :: sys in systems && c in sys.desc.componentWrites)
      && (n in access.resourceReads <==>
            n != "" && exists sys, r :: sys in systems && r in sys.desc.resources && r.name == n)
      && (n in access.resourceWrites <==>
            n != "" && exists sys, r :: sys in systems && r in sys.desc.resources && r.name == n && r.write)
  {
    ComponentClaimsMean(systems, c);
    ResourceClaimsMean(systems, n);
    forall sys | sys in systems
      ensures n in Names(sys.desc.resources, true) <==>
        n != "" && exists r :: r in sys.desc.resources && r.name == n && r.write
      ensures n in Names(sys.desc.resources, false) <==> n != "" && exists r :: r in sys.desc.resources && r.name == n
    {
      NamesMean(sys.desc.resources, true, n);
      NamesMean(sys.desc.resources, false, n);
    }
    hide Names, ComponentClaims, ResourceClaims;
  }

  /** The last system writes no component that an earlier one does. */
  lemma ComponentsApartFromAll(init: seq<System>, last: System)
    ensures Elements(ComponentClaims(init)) !! Elements(last.desc.componentWrites)
      <==> forall i :: 0 <= i < |init| ==> ComponentsApart(init[i].desc, last.desc)
  {
    forall c ensures c in ComponentClaims(init) <==> exists sys :: sys in init && c in sys.desc.componentWrites {
      ComponentClaimsMean(init, c);
    }
    hide ComponentClaims;
    if forall i :: 0 <= i < |init| ==> ComponentsApart(init[i].desc, last.desc) {
      forall c | c in ComponentClaims(init) ensures c !in last.desc.componentWrites {
        var sys :| sys in init && c in sys.desc.componentWrites;
        var i :| 0 <= i < |init| && init[i] == sys;
        assert ComponentsApart(init[i].desc, last.desc);
      }
    } else {
      var i :| 0 <= i < |init| && !ComponentsApart(init[i].desc, last.desc);
      assert init[i] in init;
      var c :| c in init[i].desc.componentWrites && c in last.desc.componentWrites;
      assert c in Elements(ComponentClaims(init)) && c in Elements(last.desc.componentWrites);
    }
  }

  /** The last system writes no named resource that an earlier one does. */
  lemma ResourcesApartFromAll(init: seq<System>, last: System)
    ensures Elements(ResourceClaims(init)) !! Elements(Names(last.desc.resources, true))
      <==> forall i :: 0 <= i < |init| ==> ResourcesApart(init[i].desc, last.desc)
  {
    if forall i :: 0 <= i < |init| ==> ResourcesApart(init[i].desc, last.desc) {
      forall n | n in ResourceClaims(init) ensures n !in Names(last.desc.resources, true) {
        ResourceClaimsMean(init, n);
        var sys :| sys in init && n in Names(sys.desc.resources, true);
        var i :| 0 <= i < |init| && init[i] == sys;
        assert ResourcesApart(init[i].desc, last.desc);
        NamesMean(sys.desc.resources, true, n);
        NamesMean(last.desc.resources, true, n);
      }
    } else {
      var i :| 0 <= i < |init| && !ResourcesApart(init[i].desc, last.desc);
      assert init[i] in init;
      var r, r' :| r in init[i].desc.resources && r' in last.desc.resources && r.write && r'.write && r.name != ""
                   && r.name == r'.name;
      NamesMean(init[i].desc.resources, true, r.name);
      NamesMean(last.desc.resources, true, r.name);
      ResourceClaimsMean(init, r.name);
      assert r.name in Elements(ResourceClaims(init)) && r.name in Elements(Names(last.desc.resources, true));
    }
  }

  lemma WrittenOnceStep(init: seq<System>, last: System)
    ensures WrittenOnce(init + [last]) <==>
      && WrittenOnce(init) && NoDup(last.desc.componentWrites) && NoRepeatedWrite(last.desc.resources)
      && forall i :: 0 <= i < |init| ==> WriteApart(init[i].desc, last.desc)
  {
    hide WriteApart, NoRepeatedWrite, NoDup;
    var systems := init + [last];
    assert forall i :: 0 <= i < |init| ==> systems[i] == init[i];
    assert systems[|init|] == last;
  }

  /** The claims gathered have no repeats exactly when nothing is written twice. */
  lemma {:induction false} ClaimsRepeat(systems: seq<System>)
    ensures NoDup(ComponentClaims(systems)) && NoDup(ResourceClaims(systems)) <==> WrittenOnce(systems)
  {
    if systems != [] {
      var n := |systems| - 1;
      var init, last := systems[..n], systems[n];
      ClaimsRepeat(init);
      assert init + [last] == systems;
      NoDupConcat(ComponentClaims(init), last.desc.componentWrites);
      NoDupConcat(ResourceClaims(init), Names(last.desc.resources, true));
      NamesRepeat(last.desc.resources);
      ComponentsApartFromAll(init, last);
      ResourcesApartFromAll(init, last);
      WrittenOnceStep(init, last);
      hide WrittenOnce, Names, NoDup, NoRepeatedWrite, ComponentsApart, ResourcesApart, Elements;
      ApartBoth(init, last);
    }
  }

  lemma ApartBoth(init: seq<System>, last: System)
    ensures (forall i :: 0 <= i < |init| ==> WriteApart(init[i].desc, last.desc)) <==>
      && (forall i :: 0 <= i < |init| ==> ComponentsApart(init[i].desc, last.desc))
      && (forall i :: 0 <= i < |init| ==> ResourcesApart(init[i].desc, last.desc))
  {
    hide ComponentsApart, ResourcesApart;
    if forall i :: 0 <= i < |init| ==> WriteApart(init[i].desc, last.desc) {
      forall i | 0 <= i < |init|
        ensures ComponentsApart(init[i].desc, last.desc) && ResourcesApart(init[i].desc, last.desc)
      {
        assert WriteApart(init[i].desc, last.desc);
      }
    }
  }

  /**
   * Exactly when a list of systems is admissible: nothing is written twice, by one system or by
   * two, and in an async group every system allows it and declares no write at all.
   */
  lemma AdmissibleMeans(mode: Mode, systems: seq<System>)
    ensures Admissible(mode, systems) <==>
      && WrittenOnce(systems)
      && (mode == Async ==> forall sys :: sys in systems ==>
            && sys.desc.asyncAllowed && sys.desc.componentWrites == []
            && forall r :: r in sys.desc.resources ==> !r.write)
  {
    ClaimsRepeat(systems);
    hide WrittenOnce, ComponentClaims, ResourceClaims, NoDup;
  }

  /** A group whose systems passed validation, with the access recorded for them. */
  predicate Validated(g: WorkGroup) {
    Admissible(g.mode, g.systems) && g.access == Declared(g.systems)
  }

  /** The two systems write no component in common, and neither writes a named resource that the other accesses. */
  predicate NoClash(d: Descriptor, d': Descriptor) {
    && (forall c :: c in d.componentWrites ==> c !in d'.componentWrites)
    && (forall r, r' :: r in d.resources && r' in d'.resources && (r.write || r'.write) && r.name != "" ==>
          r.name != r'.name)
  }

  lemma ClashesAreShared(systems: seq<System>, others: seq<System>, sys: System, other: System)
    requires sys in systems && other in others && Compatible(Declared(systems), Declared(others))
    ensures NoClash(sys.desc, other.desc)
  {
    forall c | c in sys.desc.componentWrites ensures c !in other.desc.componentWrites {
      DeclaredMeans(systems, c, "");
      DeclaredMeans(others, c, "");
      hide Declared;
    }
    forall r, r' | r in sys.desc.resources && r' in other.desc.resources && (r.write || r'.write) && r.name != ""
      ensures r.name != r'.name
    {
      DeclaredMeans(systems, "", r.name);
      DeclaredMeans(others, "", r.name);
      hide Declared;
    }
  }

  lemma ComponentClash(systems: seq<System>, others: seq<System>, c: ComponentType)
    requires c in Declared(systems).componentWrites && c in Declared(others).componentWrites
    ensures exists sys, other :: sys in systems && other in others && !NoClash(sys.desc, other.desc)
  {
    DeclaredMeans(systems, c, "");
    DeclaredMeans(others, c, "");
    var sys :| sys in systems && c in sys.desc.componentWrites;
    var other :| other in others && c in other.desc.componentWrites;
    assert !NoClash(sys.desc, other.desc);
  }

  lemma ResourceClash(systems: seq<System>, others: seq<System>, n: string)
    requires
      || (n in Declared(systems).resourceWrites && n in Declared(others).resourceReads)
      || (n in Declared(systems).resourceReads && n in Declared(others).resourceWrites)
    ensures exists sys, other :: sys in systems && other in others && !NoClash(sys.desc, other.desc)
  {
    DeclaredMeans(systems, "", n);
    DeclaredMeans(others, "", n);
    hide Declared;
    if n in Declared(systems).resourceWrites && n in Declared(others).resourceReads {
      var sys, r :| sys in systems && r in sys.desc.resources && r.name == n && r.write;
      var other, r' :| other in others && r' in other.desc.resources && r'.name == n;
      assert !NoClash(sys.desc, other.desc);
    } else {
      var sys, r :| sys in systems && r in sys.desc.resources && r.name == n;
      var other, r' :| other in others && r' in other.desc.resources && r'.name == n && r'.write;
      assert !NoClash(sys.desc, other.desc);
    }
  }

  /**
   * What makes two groups compatible, said of their systems: no system of one writes a component
   * that one of the other writes, or a named resource that one of the other reads or writes, nor
   * the other way round.
   */
  lemma CompatibleMeans(systems: seq<System>, others: seq<System>)
    ensures Compatible(Declared(systems), Declared(others)) <==>
      forall sys, other :: sys in systems && other in others ==> NoClash(sys.desc, other.desc)
  {
    var a, b := Declared(systems), Declared(others);
    if Compatible(a, b) {
      forall sys, other | sys in systems && other in others ensures NoClash(sys.desc, other.desc) {
        ClashesAreShared(systems, others, sys, other);
      }
    } else if c :| c in a.componentWrites && c in b.componentWrites {
      ComponentClash(systems, others, c);
    } else {
      WritesAreReads(others);
      var n :| (n in a.resourceWrites && n in b.resourceReads) || (n in a.resourceReads && n in b.resourceWrites);
      ResourceClash(systems, others, n);
    }
    hide Declared, NoClash;
  }
}
