/** Memory written in place: each page of it is shown once. */
module VmInPlace {
  import opened Basics
  import opened VmObjects
  import opened VmModel
  import opened VmInvariants
  import opened VmFork
  import opened VmDetach

  lemma IsSole(links: Links, regions: Regions, except: set<nat>, k: RegKey)
    requires InPlaceBut(links, regions, except) && k in regions && InPlace(regions[k]) && k.pid !in except
    ensures SoleUse(links, regions, k)
  {}

  // No object below others, and no object of a region that is not written in place, is written in place.
  lemma NotSole(links: Links, regions: Regions, except: set<nat>, k: RegKey, k': RegKey)
    requires InPlaceBut(links, regions, except) && k in regions && InPlace(regions[k]) && k.pid !in except
    requires k' in regions && (!InPlace(regions[k']) || k'.pid != k.pid)
    ensures regions[k].source != regions[k'].source
  {
    IsSole(links, regions, except, k);
    assert regions[k].source == regions[k'].source ==> SharesPart(k, regions[k], k', regions[k']);
  }

  // Every use is still the only one if regions, and referers of objects, have only gone.
  lemma FewerUses(links: Links, regions: Regions, links': Links, regions': Regions, except: set<nat>)
    requires InPlaceBut(links, regions, except)
    requires forall k :: k in regions' ==> k in regions && regions'[k] == regions[k]
    requires forall k :: k in regions' && ObjRefs(links, regions[k].source) == {} ==>
               ObjRefs(links', regions[k].source) == {}
    ensures InPlaceBut(links', regions', except)
  {
    hide ObjRefs;
    forall k | k in regions' && InPlace(regions'[k]) && k.pid !in except ensures SoleUse(links', regions', k) {
      IsSole(links, regions, except, k);
    }
  }

  // ---------------------------------------------------------------- mapping

  // A new object without an object below it.
  lemma AddBottom(links: Links, regions: Regions, except: set<nat>, o: ObjId, l: Link)
    requires InPlaceBut(links, regions, except) && RegionsOk(links, regions) && l.next == 0 && 0 !in links
    requires o !in links
    ensures InPlaceBut(links[o := l], regions, except)
  {
    hide ObjRefs, InPlaceBut;
    forall k | k in regions ensures ObjRefs(links[o := l], regions[k].source) == ObjRefs(links, regions[k].source) {
      assert RegionOk(links, regions, k);
      AddLinkRefs(links, o, l, regions[k].source);
    }
    FewerUses(links, regions, links[o := l], regions, except);
  }

  // A new region, of an object that no region writes in place; or written in place, and the only user.
  lemma AddRegion(links: Links, regions: Regions, except: set<nat>, k: RegKey, r: Region)
    requires InPlaceBut(links, regions, except) && k !in regions
    requires forall k' :: k' in regions && k'.pid !in except && regions[k'].source == r.source ==> !InPlace(regions[k'])
    requires InPlace(r) ==>
               ObjRefs(links, r.source) == {} && forall k' :: k' in regions ==> regions[k'].source != r.source
    ensures InPlaceBut(links, regions[k := r], except)
  {
    hide ObjRefs;
    var regions' := regions[k := r];
    forall k0 | k0 in regions' && InPlace(regions'[k0]) && k0.pid !in except ensures SoleUse(links, regions', k0) {
      if k0 != k { IsSole(links, regions, except, k0); }
    }
  }

  // ---------------------------------------------------------------- faults and fork

  // Objects get new objects above them, and their region, which does not write in place, moves up.
  lemma MoveUp(links: Links, regions: Regions, except: set<nat>, links': Links, regions': Regions, k: RegKey)
    requires InPlaceBut(links, regions, except) && k in regions && k in regions'
    requires !InPlace(regions[k]) || k.pid in except
    requires forall x :: x in links && x != regions[k].source ==> ObjRefs(links', x) == ObjRefs(links, x)
    requires forall k' :: k' in regions ==> regions[k'].source in links
    requires forall k' :: k' in regions' && !SameUse(regions, regions', k') ==>
               !InPlace(regions'[k']) && (regions'[k'].source !in links || regions'[k'].source == regions[k].source)
    requires forall k' :: k' in regions ==> k' in regions'
    requires forall k0 :: k0 in regions && InPlace(regions[k0]) && k0.pid !in except ==>
               regions[k0].source != regions[k].source
    ensures InPlaceBut(links', regions', except)
  {
    hide ObjRefs;
    forall k0 | k0 in regions' && InPlace(regions'[k0]) && k0.pid !in except ensures SoleUse(links', regions', k0) {
      assert SameUse(regions, regions', k0);
      IsSole(links, regions, except, k0);
      forall k' | k' in regions' && k' != k0 && regions'[k'].source == regions'[k0].source
        ensures SharesPart(k0, regions'[k0], k', regions'[k'])
      {
        assert SameUse(regions, regions', k');
      }
    }
  }

  predicate SameUse(regions: Regions, regions': Regions, k: RegKey) {
    k in regions && k in regions' && regions'[k] == regions[k]
  }

  // Case B of a fault, for a region without a shadow.
  lemma NewShadowInPlace(links: Links, regions: Regions, k: RegKey, t: ObjId, l: Link)
    requires InPlaceOk(links, regions) && RegionsOk(links, regions) && Ranked(links)
    requires k in regions && regions[k].cow && t !in links && t != 0 && l.next == regions[k].source
    ensures InPlaceOk(links[t := l], regions[k := regions[k].(source := t)])
  {
    hide ObjRefs, InPlaceBut;
    var regions' := regions[k := regions[k].(source := t)];
    forall x | x in links && x != regions[k].source ensures ObjRefs(links[t := l], x) == ObjRefs(links, x) {
      AddLinkRefs(links, t, l, x);
    }
    forall k' | k' in regions ensures regions[k'].source in links { assert RegionOk(links, regions, k'); }
    forall k0 | k0 in regions && InPlace(regions[k0]) ensures regions[k0].source != regions[k].source {
      NotSole(links, regions, {}, k0, k);
    }
    MoveUp(links, regions, {}, links[t := l], regions', k);
  }

  // One round of fork, for processes other than the parent.
  lemma ForkInPlace(links: Links, regions: Regions, k: RegKey, child: nat, t1: ObjId, t2: ObjId, l: Link)
    requires InPlaceBut(links, regions, {k.pid}) && RegionsOk(links, regions) && Ranked(links)
    requires CanFork(links, regions, k, child, t1, t2) && l.next == regions[k].source
    ensures
      var r := regions[k];
      InPlaceBut(links[t1 := l][t2 := l],
                 regions[k := r.(source := t1, cow := true)][RegKey(child, k.first) := r.(source := t2, cow := true)],
                 {k.pid})
  {
    hide ObjRefs, InPlaceBut;
    var r := regions[k];
    var links' := links[t1 := l][t2 := l];
    var regions' := regions[k := r.(source := t1, cow := true)]
                           [RegKey(child, k.first) := r.(source := t2, cow := true)];
    forall x | x in links && x != r.source ensures ObjRefs(links', x) == ObjRefs(links, x) {
      AddLinkRefs(links, t1, l, x);
      AddLinkRefs(links[t1 := l], t2, l, x);
    }
    forall k' | k' in regions ensures regions[k'].source in links { assert RegionOk(links, regions, k'); }
    forall k0 | k0 in regions && InPlace(regions[k0]) && k0.pid !in {k.pid} ensures regions[k0].source != r.source {
      NotSole(links, regions, {k.pid}, k0, k);
    }
    MoveUp(links, regions, {k.pid}, links', regions', k);
  }

  lemma ForkReadOnlyInPlace(links: Links, regions: Regions, k: RegKey, child: nat)
    requires InPlaceBut(links, regions, {k.pid}) && k in regions && !regions[k].writable
    requires RegKey(child, k.first) !in regions
    ensures InPlaceBut(links, regions[RegKey(child, k.first) := regions[k]], {k.pid})
  {
    hide ObjRefs, InPlaceBut;
    forall k' | k' in regions && k'.pid !in {k.pid} && regions[k'].source == regions[k].source
      ensures !InPlace(regions[k'])
    {
      if InPlace(regions[k']) { NotSole(links, regions, {k.pid}, k', k); }
    }
    AddRegion(links, regions, {k.pid}, RegKey(child, k.first), regions[k]);
  }

  // Once nothing of the parent is written in place it is no exception.
  lemma ForkedInPlace(links: Links, regions: Regions, parent: nat)
    requires InPlaceBut(links, regions, {parent})
    requires forall k :: k in regions && k.pid == parent ==> !InPlace(regions[k])
    ensures InPlaceOk(links, regions)
  {
    hide ObjRefs;
    forall k | k in regions && InPlace(regions[k]) ensures SoleUse(links, regions, k) {
      IsSole(links, regions, {parent}, k);
    }
  }

  lemma InPlaceOthers(links: Links, regions: Regions, parent: nat)
    requires InPlaceOk(links, regions)
    ensures InPlaceBut(links, regions, {parent})
  {}

  // ---------------------------------------------------------------- unmapping

  lemma DetachInPlace(s: State, k: RegKey, s': State)
    requires InPlaceOk(s.store.links, s.regions) && k in s.regions && RegionsOk(s'.store.links, s'.regions)
    requires s'.regions == s.regions - {k} && NoNewReferers(s.store.links, s'.store.links)
    ensures InPlaceOk(s'.store.links, s'.regions)
  {
    hide ObjRefs, InPlaceBut;
    forall k' | k' in s'.regions && ObjRefs(s.store.links, s.regions[k'].source) == {}
      ensures ObjRefs(s'.store.links, s.regions[k'].source) == {}
    {
      assert RegionOk(s'.store.links, s'.regions, k');
    }
    FewerUses(s.store.links, s.regions, s'.store.links, s'.regions, {});
  }
}
