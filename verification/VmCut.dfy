/** Unmapping a part of a region: it is cut short, or in two. */
module VmCut {
  import opened Basics
  import opened VmObjects
  import opened VmModel
  import opened VmInvariants
  import opened VmInPlace
  import opened VmRefinement
  import opened VmRuns

  predicate WellPlaced(k: RegKey, r: Region) { k.first == r.first <= r.last }

  // No region starts at the page after the part taken out.
  predicate Clear(regions: Regions, k: RegKey, hi: nat)
    requires k in regions
  {
    hi < regions[k].last ==> RegKey(k.pid, hi + 1) !in regions
  }

  lemma IsClear(links: Links, regions: Regions, k: RegKey, lo: nat, hi: nat)
    requires CanCut(regions, k, lo, hi) && RegionsOk(links, regions)
    ensures Clear(regions, k, hi) && regions[k].source in links && WellPlaced(k, regions[k])
  {
    var k2 := RegKey(k.pid, hi + 1);
    IsRegionOk(links, regions, k);
    if k2 in regions { IsRegionOk(links, regions, k2); }
    assert k2 in regions ==> k2 == k || Apart(regions[k], regions[k2]);
  }

  // ---------------------------------------------------------------- references

  // The regions that refer to an object, after the cut.
  lemma CutSets(regions: Regions, k: RegKey, lo: nat, hi: nat, x: ObjId)
    requires CanCut(regions, k, lo, hi) && Clear(regions, k, hi)
    ensures
      var r, k2, was := regions[k], RegKey(k.pid, hi + 1), RegRefs(regions, x);
      RegRefs(CutRegions(regions, k, lo, hi), x) ==
        if x != r.source then was
        else if lo == r.first then was - {k} + {k2}
        else if hi < r.last then was + {k2} else was
    ensures x == regions[k].source ==> k in RegRefs(regions, x)
    ensures hi < regions[k].last ==> RegKey(k.pid, hi + 1) !in RegRefs(regions, x)
  {}

  lemma CutRef(links: Links, regions: Regions, k: RegKey, lo: nat, hi: nat, x: ObjId, c: Refs)
    requires CanCut(regions, k, lo, hi) && Clear(regions, k, hi) && x in links && RefOk(links, regions, x, c)
    ensures RefOk(links, CutRegions(regions, k, lo, hi), x,
                  if x == regions[k].source && InTwo(regions[k], lo, hi) then c.(count := c.count + 1) else c)
  {
    hide CutRegions, RegRefs, ObjRefs;
    CutSets(regions, k, lo, hi, x);
  }

  lemma CutRefs(links: Links, regions: Regions, refs: map<ObjId, Refs>, k: RegKey, lo: nat, hi: nat)
    requires CanCut(regions, k, lo, hi) && Clear(regions, k, hi) && RefsOk(links, regions, refs)
    requires regions[k].source in links
    ensures
      var r := regions[k];
      var c := refs[r.source];
      RefsOk(links, CutRegions(regions, k, lo, hi),
             if InTwo(r, lo, hi) then refs[r.source := c.(count := c.count + 1)] else refs)
  {
    hide CutRegions, RefOk;
    forall x | x in links
      ensures RefOk(links, CutRegions(regions, k, lo, hi), x,
                    if x == regions[k].source && InTwo(regions[k], lo, hi) then refs[x].(count := refs[x].count + 1)
                    else refs[x])
    {
      CutRef(links, regions, k, lo, hi, x, refs[x]);
    }
  }

  // ---------------------------------------------------------------- regions

  // Where the regions after the cut come from.
  lemma CutFrom(regions: Regions, k: RegKey, lo: nat, hi: nat, k': RegKey)
    requires CanCut(regions, k, lo, hi) && k' in CutRegions(regions, k, lo, hi)
    ensures
      var r, r' := regions[k], CutRegions(regions, k, lo, hi)[k'];
      || (k' == k && lo > r.first && r' == LowPart(r, lo))
      || (k' == RegKey(k.pid, hi + 1) && hi < r.last && r' == HighPart(r, hi))
      || (k' != k && k' in regions && r' == regions[k'])
  {}

  lemma CutApart(regions: Regions, k: RegKey, lo: nat, hi: nat)
    requires CanCut(regions, k, lo, hi) && RegionsApart(regions)
    ensures RegionsApart(CutRegions(regions, k, lo, hi))
  {
    hide CutRegions;
    var regions' := CutRegions(regions, k, lo, hi);
    forall k1, k2 | k1 in regions' && k2 in regions' && k1.pid == k2.pid && k1 != k2
      ensures Apart(regions'[k1], regions'[k2])
    {
      CutFrom(regions, k, lo, hi, k1);
      CutFrom(regions, k, lo, hi, k2);
    }
  }

  lemma CutRegionOk(links: Links, regions: Regions, k: RegKey, lo: nat, hi: nat, k': RegKey)
    requires CanCut(regions, k, lo, hi) && Clear(regions, k, hi) && k' in CutRegions(regions, k, lo, hi)
    requires RegionOk(links, regions, k) && (k' in regions ==> RegionOk(links, regions, k'))
    requires InTwo(regions[k], lo, hi) ==> links[regions[k].source].kind != Shadow
    ensures RegionOk(links, CutRegions(regions, k, lo, hi), k')
  {
    hide CutRegions, RegRefs, ObjRefs;
    CutFrom(regions, k, lo, hi, k');
    CutSets(regions, k, lo, hi, CutRegions(regions, k, lo, hi)[k'].source);
  }

  lemma CutRegionsOk(links: Links, regions: Regions, k: RegKey, lo: nat, hi: nat)
    requires CanCut(regions, k, lo, hi) && Clear(regions, k, hi) && RegionsOk(links, regions)
    requires regions[k].source in links
    requires InTwo(regions[k], lo, hi) ==> links[regions[k].source].kind != Shadow
    ensures RegionsOk(links, CutRegions(regions, k, lo, hi))
  {
    hide CutRegions, RegionOk;
    CutApart(regions, k, lo, hi);
    assert RegionOk(links, regions, k);
    forall k' | k' in CutRegions(regions, k, lo, hi) ensures RegionOk(links, CutRegions(regions, k, lo, hi), k') {
      CutRegionOk(links, regions, k, lo, hi, k');
    }
  }

  // A part of a region shows a part of its pages.
  predicate PartOf(r': Region, r: Region) {
    && r'.source == r.source && r'.writable == r.writable && r'.cow == r.cow
    && r.srcPage <= r'.srcPage && r'.srcPage + r'.last - r'.first <= r.srcPage + r.last - r.first
  }

  lemma CutParts(regions: Regions, k: RegKey, lo: nat, hi: nat, k': RegKey)
    requires CanCut(regions, k, lo, hi) && Clear(regions, k, hi) && k' in CutRegions(regions, k, lo, hi)
    ensures
      var r' := CutRegions(regions, k, lo, hi)[k'];
      if k' == k || (k' == RegKey(k.pid, hi + 1) && hi < regions[k].last) then PartOf(r', regions[k]) && k'.pid == k.pid
      else k' in regions && r' == regions[k']
    ensures
      var regions', k2 := CutRegions(regions, k, lo, hi), RegKey(k.pid, hi + 1);
      k in regions' && k2 in regions' && hi < regions[k].last ==> k != k2 && PagesApart(regions'[k], regions'[k2])
  {}

  // The parts of memory written in place are still shown once.
  lemma CutInPlace(links: Links, regions: Regions, k: RegKey, lo: nat, hi: nat)
    requires CanCut(regions, k, lo, hi) && Clear(regions, k, hi) && InPlaceOk(links, regions)
    ensures InPlaceOk(links, CutRegions(regions, k, lo, hi))
  {
    hide CutRegions, ObjRefs, InPlaceBut;
    var regions', k2 := CutRegions(regions, k, lo, hi), RegKey(k.pid, hi + 1);
    forall k1 | k1 in regions' && InPlace(regions'[k1]) && k1.pid !in {} ensures SoleUse(links, regions', k1) {
      CutParts(regions, k, lo, hi, k1);
      var k0 := if k1 == k || (k1 == k2 && hi < regions[k].last) then k else k1;
      IsSole(links, regions, {}, k0);
      forall k' | k' in regions' && k' != k1 && regions'[k'].source == regions'[k1].source
        ensures SharesPart(k1, regions'[k1], k', regions'[k'])
      {
        CutParts(regions, k, lo, hi, k');
        var k0' := if k' == k || (k' == k2 && hi < regions[k].last) then k else k';
        if k0' != k0 { assert SharesPart(k0, regions[k0], k0', regions[k0']); }
      }
    }
    Parts(links, regions');
  }

  lemma Parts(links: Links, regions: Regions)
    requires forall k :: k in regions && InPlace(regions[k]) && k.pid !in {} ==> SoleUse(links, regions, k)
    ensures InPlaceOk(links, regions)
  {}

  // ---------------------------------------------------------------- pages

  // A page that is covered after the cut was covered before, by a region that showed the same there.
  lemma CutCovers(regions: Regions, k: RegKey, lo: nat, hi: nat, k': RegKey, e: PageKey) returns (k0: RegKey)
    requires CanCut(regions, k, lo, hi) && RegionsApart(regions) && Covers(CutRegions(regions, k, lo, hi), k', e)
    ensures Covers(regions, k0, e) && !(e.pid == k.pid && lo <= e.vp <= hi)
    ensures SamePlace(CutRegions(regions, k, lo, hi)[k'], regions[k0], e.vp)
  {
    hide CutRegions;
    CutFrom(regions, k, lo, hi, k');
    k0 := if k' in regions && CutRegions(regions, k, lo, hi)[k'] == regions[k'] && k' != k then k' else k;
    if k0 != k && k'.pid == k.pid { assert Apart(regions[k'], regions[k]); }
  }

  predicate SamePlace(r': Region, r: Region, vp: nat) {
    && r'.source == r.source && r'.readable == r.readable && r'.writable == r.writable && r'.cow == r.cow
    && r'.first <= vp && r.first <= vp && PageNr(r', vp) == PageNr(r, vp)
  }

  // Every other page is still covered.
  lemma StillCovered(regions: Regions, k: RegKey, lo: nat, hi: nat, k0: RegKey, e: PageKey) returns (k': RegKey)
    requires CanCut(regions, k, lo, hi) && Clear(regions, k, hi) && Covers(regions, k0, e)
    requires !(e.pid == k.pid && lo <= e.vp <= hi)
    ensures Covers(CutRegions(regions, k, lo, hi), k', e)
  {
    k' := if k0 != k || e.vp < lo then k0 else RegKey(k.pid, hi + 1);
  }

  lemma CutPtOk(links: Links, pages: Pages, regions: Regions, pt: PageTables, k: RegKey, lo: nat, hi: nat)
    requires CanCut(regions, k, lo, hi) && Clear(regions, k, hi) && RegionsApart(regions)
    requires PtOk(links, pages, regions, pt)
    ensures PtOk(links, pages, CutRegions(regions, k, lo, hi), Unmapped(pt, k.pid, lo, hi))
  {
    hide CutRegions;
    var regions', pt' := CutRegions(regions, k, lo, hi), Unmapped(pt, k.pid, lo, hi);
    forall e | e in pt' ensures exists k' :: Covers(regions', k', e) {
      var k0 :| Covers(regions, k0, e);
      var k' := StillCovered(regions, k, lo, hi, k0, e);
    }
    forall e, k' | e in pt' && Covers(regions', k', e) ensures EntryOk(links, pages, regions'[k'], e.vp, pt'[e]) {
      var k0 := CutCovers(regions, k, lo, hi, k', e);
      assert EntryOk(links, pages, regions[k0], e.vp, pt[e]);
    }
  }

  lemma CutRefines(m: Store, regions: Regions, a: Memory, k: RegKey, lo: nat, hi: nat)
    requires Refines(m, regions, a) && CanCut(regions, k, lo, hi) && Clear(regions, k, hi) && RegionsApart(regions)
    ensures Refines(m, CutRegions(regions, k, lo, hi), WithoutRange(a, k.pid, lo, hi))
  {
    hide CutRegions;
    var regions', a' := CutRegions(regions, k, lo, hi), WithoutRange(a, k.pid, lo, hi);
    forall k' | k' in regions' ensures regions'[k'].source in m.links { CutFrom(regions, k, lo, hi, k'); }
    forall e ensures e in a' <==> exists k' :: Covers(regions', k', e) {
      if e in a' {
        var k0 :| Covers(regions, k0, e);
        var k' := StillCovered(regions, k, lo, hi, k0, e);
      }
      if k' :| Covers(regions', k', e) { var k0 := CutCovers(regions, k, lo, hi, k', e); }
    }
    forall e, k' | Covers(regions', k', e) ensures a'[e] == CellOf(m, regions'[k'], e.vp) {
      var k0 := CutCovers(regions, k, lo, hi, k', e);
    }
  }

  // ---------------------------------------------------------------- the whole state

  // A cut takes away exactly the pages in the range; a region is cut in two only if its object is no shadow.
  lemma CutKeeps(s: State, a: Memory, k: RegKey, lo: nat, hi: nat)
    requires Inv(s) && InPlaceOk(s.store.links, s.regions) && Used(s) && Refines(s.store, s.regions, a)
    requires s.refs.Keys == s.store.links.Keys
    requires CanCut(s.regions, k, lo, hi) && s.regions[k].source in s.store.links
    requires InTwo(s.regions[k], lo, hi) ==> s.store.links[s.regions[k].source].kind != Shadow
    ensures var s' := CutRegion(s, k, lo, hi);
      Inv(s') && InPlaceOk(s'.store.links, s'.regions) && Used(s')
        && Refines(s'.store, s'.regions, WithoutRange(a, k.pid, lo, hi))
  {
    hide RefsOk, RegionsOk, PtOk, FilesOk, StoreOk, Refines, CutRegions, WithoutRange, Unmapped, InPlaceBut;
    IsClear(s.store.links, s.regions, k, lo, hi);
    CutRefs(s.store.links, s.regions, s.refs, k, lo, hi);
    CutRegionsOk(s.store.links, s.regions, k, lo, hi);
    CutInPlace(s.store.links, s.regions, k, lo, hi);
    AreApart(s.store.links, s.regions);
    CutPtOk(s.store.links, s.store.pages, s.regions, s.pt, k, lo, hi);
    CutRefines(s.store, s.regions, a, k, lo, hi);
  }

  lemma AreApart(links: Links, regions: Regions)
    requires RegionsOk(links, regions)
    ensures RegionsApart(regions)
  {}
}
