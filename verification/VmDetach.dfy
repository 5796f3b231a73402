/** Detaching a region: vm_object_free and vm_object_combine keep the invariant and what other regions show. */
module VmDetach {
  import opened Basics
  import opened VmObjects
  import opened VmModel
  import opened VmInvariants

  // ---------------------------------------------------------------- page tables

  // Lookup from the remaining objects is unchanged, also within one object's own chain.
  ghost predicate SameLookup(links: Links, pages: Pages, links': Links, pages': Pages) {
    && Ranked(links) && Ranked(links') && links'.Keys <= links.Keys
    && (forall o :: o in links' ==> links'[o].kind == links[o].kind)
    && (forall o, n :: o in links' ==> Find(links', pages', o, n) == Find(links, pages, o, n))
    && (forall o, n :: o in links' && FindIn(ChainOf(pages, o), n).Some? ==>
                         FindIn(ChainOf(pages', o), n) == FindIn(ChainOf(pages, o), n))
  }

  lemma DetachPtOk(links: Links, pages: Pages, links': Links, pages': Pages, regions: Regions, pt: PageTables,
                   k: RegKey)
    requires SameLookup(links, pages, links', pages') && PtOk(links, pages, regions, pt) && k in regions
    requires forall k' :: k' in regions && k' != k ==> regions[k'].source in links'
    ensures PtOk(links', pages', regions - {k}, Unmapped(pt, k.pid, regions[k].first, regions[k].last))
  {
    hide SameLookup;
    var regions', pt' := regions - {k}, Unmapped(pt, k.pid, regions[k].first, regions[k].last);
    forall e | e in pt' ensures exists k' :: Covers(regions', k', e) {
      var k' :| Covers(regions, k', e);
      assert Covers(regions', k', e);
    }
    forall e, k' | e in pt' && Covers(regions', k', e) ensures EntryOk(links', pages', regions'[k'], e.vp, pt'[e]) {
      assert Covers(regions, k', e);
      DetachEntry(links, pages, links', pages', regions[k'], e.vp, pt[e]);
    }
  }

  lemma DetachEntry(links: Links, pages: Pages, links': Links, pages': Pages, r: Region, vp: nat, e: Pte)
    requires SameLookup(links, pages, links', pages') && EntryOk(links, pages, r, vp, e) && r.source in links'
    ensures EntryOk(links', pages', r, vp, e)
  {}

  lemma DetachViews(m: Store, m': Store, regions: Regions, k: RegKey)
    requires SameLookup(m.links, m.pages, m'.links, m'.pages) && m'.mem == m.mem && m'.files == m.files
    requires forall o :: o in m'.links ==> m'.links[o].(next := 0) == m.links[o].(next := 0)
    requires forall o :: o in m'.links ==> Bottom(m'.links, o) == Bottom(m.links, o)
    requires forall k' :: k' in regions && k' != k ==> regions[k'].source in m'.links
    ensures SameViews(m, regions - {k}, m', regions - {k})
  {
    forall k' | k' in regions && k' != k ensures SameRegion(m, regions[k'], m', regions[k']) {
      var o := regions[k'].source;
      forall n ensures Value(m', o, n) == Value(m, o, n) {}
    }
  }

  lemma DetachRegionRefs(regions: Regions, k: RegKey, x: ObjId)
    requires k in regions
    ensures RegRefs(regions - {k}, x) == RegRefs(regions, x) - {k}
    ensures k in RegRefs(regions, x) <==> x == regions[k].source
  {}

  // ---------------------------------------------------------------- the object stays

  // The region goes; its source, not a shadow, loses one reference and stays.
  function DropRegion(s: State, k: RegKey): State
    requires k in s.regions && s.regions[k].source in s.refs
  {
    var r := s.regions[k];
    s.(regions := s.regions - {k}, pt := Unmapped(s.pt, k.pid, r.first, r.last),
       refs := s.refs[r.source := s.refs[r.source].(count := s.refs[r.source].count - 1)])
  }

  lemma DropRegionRefs(links: Links, regions: Regions, refs: map<ObjId, Refs>, k: RegKey)
    requires RefsOk(links, regions, refs) && k in regions && regions[k].source in links
    requires links[regions[k].source].kind != Shadow
    ensures var o := regions[k].source;
      RefsOk(links, regions - {k}, refs[o := refs[o].(count := refs[o].count - 1)])
  {
    var o := regions[k].source;
    var refs' := refs[o := refs[o].(count := refs[o].count - 1)];
    forall x | x in links ensures RefOk(links, regions - {k}, x, refs'[x]) {
      assert RefOk(links, regions, x, refs[x]);
      DetachRegionRefs(regions, k, x);
      if x != o { assert RegRefs(regions - {k}, x) == RegRefs(regions, x); }
    }
  }

  lemma DropRegionsOk(links: Links, regions: Regions, k: RegKey)
    requires RegionsOk(links, regions) && k in regions
    ensures RegionsOk(links, regions - {k})
  {
    forall k' | k' in regions - {k} ensures RegionOk(links, regions - {k}, k') {
      assert RegionOk(links, regions, k');
      DetachRegionRefs(regions, k, regions[k'].source);
    }
  }

  lemma DropRegionKeeps(s: State, k: RegKey)
    requires Inv(s) && k in s.regions && s.regions[k].source in s.store.links && s.regions[k].source in s.refs
    requires s.store.links[s.regions[k].source].kind != Shadow
    ensures var s' := DropRegion(s, k); Inv(s') && SameViews(s.store, s'.regions, s'.store, s'.regions)
  {
    hide RefsOk, RegionsOk, PtOk, FilesOk, FramesDistinct, Backed;
    var m := s.store;
    DropRegionRefs(m.links, s.regions, s.refs, k);
    DropRegionsOk(m.links, s.regions, k);
    forall k' | k' in s.regions ensures s.regions[k'].source in m.links { ShapeOf(m.links, s.regions, s.refs, k'); }
    DetachPtOk(m.links, m.pages, m.links, m.pages, s.regions, s.pt, k);
    DetachViews(m, m, s.regions, k);
  }

  // ---------------------------------------------------------------- the object goes

  lemma RemoveLinkRefs(links: Links, o: ObjId, x: ObjId)
    requires o in links
    ensures ObjRefs(links - {o}, x) == ObjRefs(links, x) - {o}
    ensures o in ObjRefs(links, x) <==> links[o].next == x
  {}

  // Removing an object nothing points to.
  lemma RemoveSame(links: Links, pages: Pages, o: ObjId)
    requires Ranked(links) && o in links && ObjRefs(links, o) == {}
    ensures SameLookup(links, pages, links - {o}, pages - {o})
    ensures forall x :: x in links && x != o ==> Bottom(links - {o}, x) == Bottom(links, x)
  {
    var links', pages' := links - {o}, pages - {o};
    forall x | x in links' ensures links[x].next != o { assert x !in ObjRefs(links, o); }
    assert Ranked(links');
    forall x, n | x in links' ensures Find(links', pages', x, n) == Find(links, pages, x, n) {
      Below(links', pages', links, pages, x, n);
    }
    forall x | x in links' ensures Bottom(links', x) == Bottom(links, x) {
      Below(links', pages', links, pages, x, 0);
    }
  }

  lemma RemoveStoreOk(m: Store, o: ObjId)
    requires StoreOk(m) && SameLookup(m.links, m.pages, m.links - {o}, m.pages - {o})
    ensures StoreOk(m.(links := m.links - {o}, pages := m.pages - {o}))
  {}

  lemma RemoveFilesOk(m: Store, vmobj: map<nat, ObjId>, o: ObjId)
    requires FilesOk(m, vmobj) && o in m.links && m.links[o].kind != File
    ensures FilesOk(m.(links := m.links - {o}, pages := m.pages - {o}), vmobj)
  {
    var m' := m.(links := m.links - {o}, pages := m.pages - {o});
    forall x | x in m'.links && m'.links[x].kind == File
      ensures HoldsFile(m'.links[x], ChainOf(m'.pages, x), m'.mem, m'.files)
    {
      assert HoldsFile(m.links[x], ChainOf(m.pages, x), m.mem, m.files);
    }
  }

  // One reference less to n, if there is such an object.
  function Discounted(refs: map<ObjId, Refs>, n: ObjId): map<ObjId, Refs>
    requires n != 0 ==> n in refs
  {
    if n == 0 then refs else refs[n := refs[n].(count := refs[n].count - 1)]
  }

  // The region goes and its source, used by nothing else, goes with it.
  function DropObject(s: State, k: RegKey): State
    requires k in s.regions && s.regions[k].source in s.store.links && s.regions[k].source in s.refs
    requires s.store.links[s.regions[k].source].next != 0 ==> s.store.links[s.regions[k].source].next in s.refs
  {
    var r := s.regions[k];
    RemoveObject(s.(regions := s.regions - {k}, pt := Unmapped(s.pt, k.pid, r.first, r.last),
                    refs := Discounted(s.refs, s.store.links[r.source].next)), r.source)
  }

  lemma DropObjectRefs(links: Links, regions: Regions, refs: map<ObjId, Refs>, k: RegKey)
    requires Ranked(links) && RefsOk(links, regions, refs) && k in regions && regions[k].source in links
    requires RegRefs(regions, regions[k].source) == {k}
    requires links[regions[k].source].next != 0 ==> links[links[regions[k].source].next].kind != Shadow
    ensures
      var o := regions[k].source;
      RefsOk(links - {o}, regions - {k}, Discounted(refs, links[o].next) - {o})
  {
    var o := regions[k].source;
    var refs' := Discounted(refs, links[o].next) - {o};
    forall x | x in links - {o} ensures RefOk(links - {o}, regions - {k}, x, refs'[x]) {
      assert RefOk(links, regions, x, refs[x]);
      DropObjectRef(links, regions, k, x, refs[x]);
    }
  }

  lemma DropObjectRef(links: Links, regions: Regions, k: RegKey, x: ObjId, c: Refs)
    requires k in regions && regions[k].source in links && x in links && x != regions[k].source
    requires RefOk(links, regions, x, c) && (x == links[regions[k].source].next ==> links[x].kind != Shadow)
    ensures
      var o := regions[k].source;
      RefOk(links - {o}, regions - {k}, x, if x == links[o].next then c.(count := c.count - 1) else c)
  {
    var o := regions[k].source;
    DetachRegionRefs(regions, k, x);
    RemoveLinkRefs(links, o, x);
    assert RegRefs(regions - {k}, x) == RegRefs(regions, x);
    if x != links[o].next { assert ObjRefs(links - {o}, x) == ObjRefs(links, x); }
  }

  lemma DropObjectRegionsOk(links: Links, regions: Regions, k: RegKey)
    requires RegionsOk(links, regions) && k in regions && regions[k].source in links
    requires RegRefs(regions, regions[k].source) == {k}
    ensures RegionsOk(links - {regions[k].source}, regions - {k})
  {
    var o := regions[k].source;
    forall k' | k' in regions - {k} ensures RegionOk(links - {o}, regions - {k}, k') {
      assert RegionOk(links, regions, k');
      assert k' !in RegRefs(regions, o);
      DetachRegionRefs(regions, k, regions[k'].source);
      RemoveLinkRefs(links, o, regions[k'].source);
    }
  }

  lemma OtherSources(links: Links, regions: Regions, refs: map<ObjId, Refs>, k: RegKey)
    requires RefsOk(links, regions, refs) && RegionsOk(links, regions) && k in regions
    requires RegRefs(regions, regions[k].source) == {k}
    ensures forall k' :: k' in regions && k' != k ==>
              regions[k'].source in links && regions[k'].source != regions[k].source
  {
    forall k' | k' in regions && k' != k
      ensures regions[k'].source in links && regions[k'].source != regions[k].source
    {
      ShapeOf(links, regions, refs, k');
      assert k' !in RegRefs(regions, regions[k].source);
    }
  }

  lemma DropObjectKeeps(s: State, k: RegKey)
    requires Inv(s) && k in s.regions && s.regions[k].source in s.store.links && s.refs.Keys == s.store.links.Keys
    requires RegRefs(s.regions, s.regions[k].source) == {k} && ObjRefs(s.store.links, s.regions[k].source) == {}
    requires s.store.links[s.regions[k].source].kind != File
    requires
      var n := s.store.links[s.regions[k].source].next;
      n != 0 ==> n in s.refs && s.store.links[n].kind != Shadow
    ensures var s' := DropObject(s, k); Inv(s') && SameViews(s.store, s'.regions, s'.store, s'.regions)
  {
    hide RefsOk, RegionsOk, PtOk, FilesOk, FramesDistinct, Backed, SameLookup, SameViews, Discounted;
    var m, o := s.store, s.regions[k].source;
    var m' := DropObject(s, k).store;
    RemoveSame(m.links, m.pages, o);
    RemoveStoreOk(m, o);
    RemoveFilesOk(m, s.vmobj, o);
    DropObjectRefs(m.links, s.regions, s.refs, k);
    DropObjectRegionsOk(m.links, s.regions, k);
    OtherSources(m.links, s.regions, s.refs, k);
    DetachPtOk(m.links, m.pages, m'.links, m'.pages, s.regions, s.pt, k);
    DetachViews(m, m', s.regions, k);
  }

  // An anonymous object nothing uses any more.
  lemma RemoveOrphanRefs(links: Links, regions: Regions, refs: map<ObjId, Refs>, o: ObjId)
    requires RefsOk(links, regions, refs) && RegionsOk(links, regions) && o in links && links[o].next == 0
    requires 0 !in links
    requires RegRefs(regions, o) == {} && ObjRefs(links, o) == {}
    ensures RefsOk(links - {o}, regions, refs - {o}) && RegionsOk(links - {o}, regions)
    ensures forall k :: k in regions ==> regions[k].source in links - {o}
  {
    forall x | x in links - {o} ensures RefOk(links - {o}, regions, x, refs[x]) {
      assert RefOk(links, regions, x, refs[x]);
      RemoveLinkRefs(links, o, x);
    }
    forall k | k in regions ensures RegionOk(links - {o}, regions, k) && regions[k].source in links - {o} {
      assert RegionOk(links, regions, k);
      assert k !in RegRefs(regions, o);
      RemoveLinkRefs(links, o, regions[k].source);
    }
  }

  lemma RemoveOrphanPtOk(links: Links, pages: Pages, regions: Regions, pt: PageTables, o: ObjId)
    requires SameLookup(links, pages, links - {o}, pages - {o}) && PtOk(links, pages, regions, pt)
    requires forall k :: k in regions ==> regions[k].source in links - {o}
    ensures PtOk(links - {o}, pages - {o}, regions, pt)
  {
    hide SameLookup;
    forall e, k | e in pt && Covers(regions, k, e)
      ensures EntryOk(links - {o}, pages - {o}, regions[k], e.vp, pt[e])
    {
      DetachEntry(links, pages, links - {o}, pages - {o}, regions[k], e.vp, pt[e]);
    }
  }

  lemma RemoveOrphanKeeps(s: State, o: ObjId)
    requires Inv(s) && o in s.store.links && s.store.links[o].kind == Anonymous && s.store.links[o].next == 0
    requires RegRefs(s.regions, o) == {} && ObjRefs(s.store.links, o) == {}
    ensures var s' := RemoveObject(s, o); Inv(s') && SameViews(s.store, s.regions, s'.store, s'.regions)
  {
    hide RefsOk, RegionsOk, PtOk, FilesOk, FramesDistinct, Backed, Find, FindIn, Bottom, Initial, ChainOf;
    var m, m' := s.store, RemoveObject(s, o).store;
    RemoveSame(m.links, m.pages, o);
    RemoveStoreOk(m, o);
    RemoveFilesOk(m, s.vmobj, o);
    RemoveOrphanRefs(m.links, s.regions, s.refs, o);
    RemoveOrphanPtOk(m.links, m.pages, s.regions, s.pt, o);
    OrphanViews(s, o);
  }

  lemma OrphanViews(s: State, o: ObjId)
    requires Ranked(s.store.links) && o in s.store.links && ObjRefs(s.store.links, o) == {}
    requires RegRefs(s.regions, o) == {} && forall k :: k in s.regions ==> s.regions[k].source in s.store.links
    ensures var s' := RemoveObject(s, o); SameViews(s.store, s.regions, s'.store, s'.regions)
  {
    hide Find, FindIn, Bottom, Initial, Ranked;
    RemoveSame(s.store.links, s.store.pages, o);
    var m, m' := s.store, RemoveObject(s, o).store;
    forall k | k in s.regions ensures SameRegion(m, s.regions[k], m', s.regions[k]) {
      assert s.regions[k].source != o by { assert k !in RegRefs(s.regions, o); }
    }
  }

  // ---------------------------------------------------------------- the object goes, the two below are combined

  // Region k's shadow o lies next to shadow top on shadow n, and n on y.
  predicate CanCombine(links: Links, regions: Regions, k: RegKey, n: ObjId, top: ObjId) {
    && k in regions && regions[k].source in links && n in links && top in links
    && var o := regions[k].source;
    && links[o].next == n && links[top].next == n && o != top && n != 0
    && links[n].kind == Shadow && links[top].kind == Shadow && links[o].kind == Shadow
    && links[n].next != 0 && links[n].next in links
    && RegRefs(regions, o) == {k} && ObjRefs(links, o) == {}
    && RegRefs(regions, n) == {} && ObjRefs(links, n) == {o, top}
  }

  // References after o is removed and n merged into top.
  lemma CombineSets(links: Links, regions: Regions, k: RegKey, n: ObjId, top: ObjId, x: ObjId)
    requires Ranked(links) && CanCombine(links, regions, k, n, top) && x in links && x != n && x != regions[k].source
    ensures RegRefs(regions - {k}, x) == RegRefs(regions, x)
    ensures
      var links' := CombinedLinks(links - {regions[k].source}, n, top);
      ObjRefs(links', x) == if x == links[n].next then ObjRefs(links, x) - {n} + {top} else ObjRefs(links, x)
    ensures n in ObjRefs(links, x) <==> x == links[n].next
    ensures top !in ObjRefs(links, x)
  {
    var o := regions[k].source;
    var links' := CombinedLinks(links - {o}, n, top);
    DetachRegionRefs(regions, k, x);
    forall z ensures z in ObjRefs(links', x) <==>
                     (z in ObjRefs(links, x) && z != n) || (z == top && x == links[n].next) {}
    assert o !in ObjRefs(links, x);
  }

  function PatchedRefs(c: Refs, n: ObjId, top: ObjId): Refs {
    c.(ref1 := if c.ref1 == n then top else c.ref1, ref2 := if c.ref2 == n then top else c.ref2)
  }

  // Renaming n to top in the two referers of an object.
  lemma PatchedSet(referers: set<ObjId>, c: Refs, n: ObjId, top: ObjId)
    requires n in referers && top !in referers
    ensures |referers - {n} + {top}| == |referers|
    ensures referers == {c.ref1, c.ref2} && c.ref1 != c.ref2 ==>
              var c' := PatchedRefs(c, n, top);
              referers - {n} + {top} == {c'.ref1, c'.ref2} && c'.ref1 != c'.ref2
  {}

  lemma CombineRef(links: Links, regions: Regions, k: RegKey, n: ObjId, top: ObjId, x: ObjId, c: Refs)
    requires Ranked(links) && CanCombine(links, regions, k, n, top) && x in links && x != n && x != regions[k].source
    requires RefOk(links, regions, x, c)
    requires x == links[n].next && links[x].kind == Shadow ==> RegRefs(regions, x) == {}
    ensures
      RefOk(CombinedLinks(links - {regions[k].source}, n, top), regions - {k}, x,
            if x == links[n].next then PatchedRefs(c, n, top) else c)
  {
    CombineSets(links, regions, k, n, top, x);
    var links' := CombinedLinks(links - {regions[k].source}, n, top);
    assert links'[x].kind == links[x].kind && (links'[x].next == 0 <==> links[x].next == 0);
    if x == links[n].next { PatchedSet(ObjRefs(links, x), c, n, top); }
  }

  // A shadow under another object is not a region's source.
  lemma BelowHasNoRegions(links: Links, regions: Regions, refs: map<ObjId, Refs>, y: ObjId, n: ObjId)
    requires RefsOk(links, regions, refs) && RegionsOk(links, regions)
    requires y in links && n in links && links[n].next == y && links[y].kind == Shadow
    ensures RegRefs(regions, y) == {}
  {
    assert n in ObjRefs(links, y);
    forall k' | k' in regions ensures k' !in RegRefs(regions, y) {
      ShapeOf(links, regions, refs, k');
    }
  }

  lemma CombineRefs(links: Links, regions: Regions, refs: map<ObjId, Refs>, k: RegKey, n: ObjId, top: ObjId,
                    refs': map<ObjId, Refs>)
    requires Ranked(links) && RefsOk(links, regions, refs) && RegionsOk(links, regions)
    requires CanCombine(links, regions, k, n, top)
    requires refs'.Keys == links.Keys - {n, regions[k].source}
    requires forall x :: x in refs' ==> refs'[x] == if x == links[n].next then PatchedRefs(refs[x], n, top) else refs[x]
    ensures RefsOk(CombinedLinks(links - {regions[k].source}, n, top), regions - {k}, refs')
  {
    hide RegionsOk, PatchedRefs, RefOk;
    var o, y := regions[k].source, links[n].next;
    var links' := CombinedLinks(links - {o}, n, top);
    forall x | x in links' ensures RefOk(links', regions - {k}, x, refs'[x]) {
      assert RefOk(links, regions, x, refs[x]);
      if x == y && links[y].kind == Shadow { BelowHasNoRegions(links, regions, refs, y, n); }
      CombineRef(links, regions, k, n, top, x, refs[x]);
    }
  }

  lemma CombineRegionsOk(links: Links, regions: Regions, k: RegKey, n: ObjId, top: ObjId)
    requires Ranked(links) && RegionsOk(links, regions) && CanCombine(links, regions, k, n, top)
    ensures RegionsOk(CombinedLinks(links - {regions[k].source}, n, top), regions - {k})
  {
    var o := regions[k].source;
    forall k' | k' in regions - {k} ensures RegionOk(CombinedLinks(links - {o}, n, top), regions - {k}, k') {
      assert RegionOk(links, regions, k');
      assert k' !in RegRefs(regions, o) && k' !in RegRefs(regions, n);
      CombineSets(links, regions, k, n, top, regions[k'].source);
      CombineSets(links, regions, k, n, top, links[n].next);
      if regions[k'].source == links[n].next { assert n in ObjRefs(links, links[n].next); }
    }
  }

  lemma CombineSame(links: Links, pages: Pages, o: ObjId, n: ObjId, top: ObjId)
    requires Ranked(links) && o in links && n in links && top in links && o != top
    requires ObjRefs(links, o) == {} && ObjRefs(links, n) == {o, top} && links[n].next != 0
    requires links[o].next == n
    ensures SameLookup(links, pages, CombinedLinks(links - {o}, n, top), CombinedPages(pages - {o}, n, top))
    ensures forall x :: x in links && x != o && x != n ==>
                          Bottom(CombinedLinks(links - {o}, n, top), x) == Bottom(links, x)
  {
    hide Find, Bottom, FindIn, CombinedLinks, CombinedPages, Ranked;
    var links1, pages1 := links - {o}, pages - {o};
    RemoveSame(links, pages, o);
    OnlyTopOver(links, o, n, top);
    CombineRanked(links1, n, top);
    CombinedKinds(links1, n, top);
    CombinedFinds(links1, pages1, n, top);
    CombinedOwns(pages1, n, top);
    OwnChains(pages, o);
  }

  lemma CombinedFinds(links: Links, pages: Pages, n: ObjId, top: ObjId)
    requires Ranked(links) && n in links && top in links && links[top].next == n && links[n].next != 0
    requires forall x :: x in links && links[x].next == n ==> x == top
    ensures Ranked(CombinedLinks(links, n, top))
    ensures forall x, i :: x in links && x != n && x in CombinedLinks(links, n, top) ==>
              Find(CombinedLinks(links, n, top), CombinedPages(pages, n, top), x, i) == Find(links, pages, x, i)
    ensures forall x :: x in links && x != n && x in CombinedLinks(links, n, top) ==>
              Bottom(CombinedLinks(links, n, top), x) == Bottom(links, x)
  {
    hide Find, Bottom, CombinedLinks, CombinedPages, Ranked;
    CombineRanked(links, n, top);
    forall x, i | x in links && x != n && x in CombinedLinks(links, n, top)
      ensures Find(CombinedLinks(links, n, top), CombinedPages(pages, n, top), x, i) == Find(links, pages, x, i)
    {
      CombineFind(links, pages, n, top, x, i);
    }
    forall x | x in links && x != n && x in CombinedLinks(links, n, top)
      ensures Bottom(CombinedLinks(links, n, top), x) == Bottom(links, x)
    {
      CombineFind(links, pages, n, top, x, 0);
    }
  }

  lemma CombinedOwns(pages: Pages, n: ObjId, top: ObjId)
    ensures forall x, i :: x != n && FindIn(ChainOf(pages, x), i).Some? ==>
              FindIn(ChainOf(CombinedPages(pages, n, top), x), i) == FindIn(ChainOf(pages, x), i)
  {
    hide FindIn, CombinedPages, ChainOf;
    forall x, i | x != n && FindIn(ChainOf(pages, x), i).Some?
      ensures FindIn(ChainOf(CombinedPages(pages, n, top), x), i) == FindIn(ChainOf(pages, x), i)
    {
      CombinedOwn(pages, n, top, x, i);
    }
  }

  lemma OwnChains(pages: Pages, o: ObjId)
    ensures forall x :: x != o ==> ChainOf(pages - {o}, x) == ChainOf(pages, x)
  {}

  // What combining needs to know, when o has gone.
  lemma OnlyTopOver(links: Links, o: ObjId, n: ObjId, top: ObjId)
    requires Ranked(links) && o in links && n in links && top in links && o != top
    requires ObjRefs(links, n) == {o, top} && links[n].next != 0 && links[o].next == n
    ensures n in links - {o} && top in links - {o} && links[top].next == n && links[top].birth > links[n].birth
    ensures forall x :: x in links - {o} && links[x].next == n ==> x == top
  {
    assert top in ObjRefs(links, n);
    assert links[n].birth < links[o].birth;
    forall x | x in links && links[x].next == n ensures x == o || x == top { assert x in ObjRefs(links, n); }
  }

  lemma CombinedKinds(links: Links, n: ObjId, top: ObjId)
    requires n in links && top in links
    ensures CombinedLinks(links, n, top).Keys <= links.Keys - {n}
    ensures forall x :: x in CombinedLinks(links, n, top) ==> CombinedLinks(links, n, top)[x].kind == links[x].kind
    ensures forall x :: x in links && x != n ==> x in CombinedLinks(links, n, top)
  {}

  // The page that an object has itself stays the first.
  lemma CombinedOwn(pages: Pages, n: ObjId, top: ObjId, x: ObjId, i: nat)
    requires x != n && FindIn(ChainOf(pages, x), i).Some?
    ensures FindIn(ChainOf(CombinedPages(pages, n, top), x), i) == FindIn(ChainOf(pages, x), i)
  {
    hide FindIn, Merge;
    MergeFind(ChainOf(pages, n), ChainOf(pages, top), i);
  }

  lemma CombineStoreOk(m: Store, regions: Regions, k: RegKey, n: ObjId, top: ObjId)
    requires StoreOk(m) && CanCombine(m.links, regions, k, n, top)
    ensures var o := regions[k].source;
      StoreOk(m.(links := CombinedLinks(m.links - {o}, n, top), pages := CombinedPages(m.pages - {o}, n, top)))
  {
    hide FramesDistinct, Backed;
    var o := regions[k].source;
    CombineSame(m.links, m.pages, o, n, top);
    assert m.links[n].birth < m.links[top].birth && m.links[n].birth < m.links[o].birth;
    CombinePagesOk(m.pages, m.mem, o, n, top);
  }

  lemma CombinePagesOk(pages: Pages, mem: map<Frame, Page>, o: ObjId, n: ObjId, top: ObjId)
    requires FramesDistinct(pages) && Backed(pages, mem) && n != top && o != n && o != top
    ensures FramesDistinct(CombinedPages(pages - {o}, n, top)) && Backed(CombinedPages(pages - {o}, n, top), mem)
  {
    var pages' := CombinedPages(pages - {o}, n, top);
    assert NoDup(ChainOf(pages, n)) && NoDup(ChainOf(pages, top));
    MergeFrames(ChainOf(pages, n), ChainOf(pages, top));
    forall o1, o2 | o1 in pages' && o2 in pages' && o1 != o2 ensures Frames(pages'[o1]) !! Frames(pages'[o2]) {
      CombineDisjoint(pages, n, top, o1, o2);
    }
  }

  lemma CombineDisjoint(pages: Pages, n: ObjId, top: ObjId, o1: ObjId, o2: ObjId)
    requires FramesDistinct(pages) && o1 != o2 && o1 != n && o2 != n && n != top
    requires Frames(Merge(ChainOf(pages, n), ChainOf(pages, top))) <= Frames(ChainOf(pages, n))
             + Frames(ChainOf(pages, top))
    requires (o1 in pages || o1 == top) && (o2 in pages || o2 == top)
    ensures
      var merged := Merge(ChainOf(pages, n), ChainOf(pages, top));
      Frames(if o1 == top then merged else pages[o1]) !! Frames(if o2 == top then merged else pages[o2])
  {
    var x := if o1 == top then o2 else o1;
    assert Frames(ChainOf(pages, x)) !! Frames(ChainOf(pages, n));
    assert x == top || Frames(ChainOf(pages, x)) !! Frames(ChainOf(pages, top));
  }

  lemma CombineFilesOk(m: Store, vmobj: map<nat, ObjId>, regions: Regions, k: RegKey, n: ObjId, top: ObjId)
    requires Ranked(m.links) && FilesOk(m, vmobj) && CanCombine(m.links, regions, k, n, top)
    ensures var o := regions[k].source;
      FilesOk(m.(links := CombinedLinks(m.links - {o}, n, top), pages := CombinedPages(m.pages - {o}, n, top)), vmobj)
  {
    var o := regions[k].source;
    assert m.links[n].birth < m.links[o].birth;
    var m' := m.(links := CombinedLinks(m.links - {o}, n, top), pages := CombinedPages(m.pages - {o}, n, top));
    forall x | x in m'.links && m'.links[x].kind == File
      ensures HoldsFile(m'.links[x], ChainOf(m'.pages, x), m'.mem, m'.files)
    {
      assert HoldsFile(m.links[x], ChainOf(m.pages, x), m.mem, m.files);
    }
  }

  lemma CombineLookup(m: Store, regions: Regions, k: RegKey, n: ObjId, top: ObjId)
    requires Ranked(m.links) && CanCombine(m.links, regions, k, n, top)
    ensures var o := regions[k].source;
      var links' := CombinedLinks(m.links - {o}, n, top);
      && SameLookup(m.links, m.pages, links', CombinedPages(m.pages - {o}, n, top))
      && (forall x :: x in links' ==> Bottom(links', x) == Bottom(m.links, x))
      && (forall x :: x in links' ==> links'[x].(next := 0) == m.links[x].(next := 0))
    ensures k in regions
  {
    CombineSame(m.links, m.pages, regions[k].source, n, top);
  }

  // The state after o is removed and n merged into top.
  predicate IsCombined(s: State, k: RegKey, n: ObjId, top: ObjId, s': State)
    requires CanCombine(s.store.links, s.regions, k, n, top)
  {
    var o, y, r := s.regions[k].source, s.store.links[n].next, s.regions[k];
    && s'.store == s.store.(links := CombinedLinks(s.store.links - {o}, n, top),
                            pages := CombinedPages(s.store.pages - {o}, n, top))
    && s'.regions == s.regions - {k} && s'.pt == Unmapped(s.pt, k.pid, r.first, r.last)
    && s'.vmobj == s.vmobj && s'.clock == s.clock
    && s'.refs.Keys == s.store.links.Keys - {n, o} && s.refs.Keys == s.store.links.Keys
    && forall x :: x in s'.refs ==> s'.refs[x] == if x == y then PatchedRefs(s.refs[x], n, top) else s.refs[x]
  }

  lemma CombineKeeps(s: State, k: RegKey, n: ObjId, top: ObjId, s': State)
    requires Inv(s) && CanCombine(s.store.links, s.regions, k, n, top) && IsCombined(s, k, n, top, s')
    ensures Inv(s') && SameViews(s.store, s'.regions, s'.store, s'.regions)
  {
    hide RefsOk, RegionsOk, PtOk, FilesOk, FramesDistinct, Backed, SameLookup, SameViews, PatchedRefs, CanCombine;
    var m := s.store;
    CombineLookup(m, s.regions, k, n, top);
    CombineStoreOk(m, s.regions, k, n, top);
    CombineFilesOk(m, s.vmobj, s.regions, k, n, top);
    CombineRefs(m.links, s.regions, s.refs, k, n, top, s'.refs);
    CombineRegionsOk(m.links, s.regions, k, n, top);
    CombineSources(m.links, s.regions, s.refs, k, n, top);
    DetachPtOk(m.links, m.pages, s'.store.links, s'.store.pages, s.regions, s.pt, k);
    DetachViews(m, s'.store, s.regions, k);
  }

  lemma CombineSources(links: Links, regions: Regions, refs: map<ObjId, Refs>, k: RegKey, n: ObjId, top: ObjId)
    requires RefsOk(links, regions, refs) && RegionsOk(links, regions) && CanCombine(links, regions, k, n, top)
    ensures forall k' :: k' in regions && k' != k ==>
                           regions[k'].source in CombinedLinks(links - {regions[k].source}, n, top)
  {
    OtherSources(links, regions, refs, k);
    forall k' | k' in regions ensures regions[k'].source != n { assert k' !in RegRefs(regions, n); }
  }

  // ---------------------------------------------------------------- vm_region_detach

  lemma DetachAnonymousOrFile(s: State, k: RegKey)
    requires Inv(s) && k in s.regions && s.regions[k].source in s.store.links && s.refs.Keys == s.store.links.Keys
    requires s.store.links[s.regions[k].source].kind != Shadow && s.store.links[s.regions[k].source].next == 0
    ensures Detached(s, k, Detach(s, k))
  {
    hide RefsOk, RegionsOk, PtOk, FilesOk, FramesDistinct, Backed, SameViews;
    var o := s.regions[k].source;
    CountOf(s.store.links, s.regions, s.refs, k);
    if s.refs[o].count > 1 || s.store.links[o].kind == File {
      DropRegionKeeps(s, k);
      DropRegionUsed(s, k);
    } else {
      DropObjectKeeps(s, k);
      DropObjectUsed(s, k);
      RemoveReferers(s.store.links, o);
      assert s.refs[o := s.refs[o].(count := s.refs[o].count - 1)] - {o} == s.refs - {o};
      assert Detach(s, k) == Some(DropObject(s, k));
    }
  }

  // What detaching region k must come to.
  ghost predicate Detached(s: State, k: RegKey, s': Option<State>)
    requires k in s.regions
  {
    && s'.Some? && Inv(s'.value)
    && s'.value.regions == s.regions - {k}
    && s'.value.pt == Unmapped(s.pt, k.pid, s.regions[k].first, s.regions[k].last)
    && s'.value.vmobj == s.vmobj && s'.value.store.files == s.store.files && s'.value.store.mem == s.store.mem
    && s'.value.store.links.Keys <= s.store.links.Keys && s'.value.clock == s.clock
    && SameViews(s.store, s.regions - {k}, s'.value.store, s'.value.regions)
    && (Used(s) ==> Used(s'.value)) && NoNewReferers(s.store.links, s'.value.store.links)
  }

  // What had no object above it has none.
  predicate NoNewReferers(links: Links, links': Links) {
    forall x :: x in links' && ObjRefs(links, x) == {} ==> ObjRefs(links', x) == {}
  }

  lemma RemoveReferers(links: Links, o: ObjId)
    requires o in links
    ensures NoNewReferers(links, links - {o})
  {
    forall x | x in links - {o} && ObjRefs(links, x) == {} ensures ObjRefs(links - {o}, x) == {} {
      RemoveLinkRefs(links, o, x);
    }
  }

  lemma RemoveTwoReferers(links: Links, o: ObjId, n: ObjId)
    requires o in links && n in links - {o}
    ensures NoNewReferers(links, links - {o} - {n})
  {
    RemoveReferers(links, o);
    RemoveReferers(links - {o}, n);
  }

  lemma CombineReferers(links: Links, regions: Regions, k: RegKey, n: ObjId, top: ObjId)
    requires Ranked(links) && CanCombine(links, regions, k, n, top)
    ensures NoNewReferers(links, CombinedLinks(links - {regions[k].source}, n, top))
  {
    var links' := CombinedLinks(links - {regions[k].source}, n, top);
    forall x | x in links' && ObjRefs(links, x) == {} ensures ObjRefs(links', x) == {} {
      CombineSets(links, regions, k, n, top, x);
    }
  }

  lemma DropRegionUsed(s: State, k: RegKey)
    requires k in s.regions && s.regions[k].source in s.refs && s.regions[k].source in s.store.links
    requires s.refs[s.regions[k].source].count > 1 || s.store.links[s.regions[k].source].kind == File
    ensures Used(s) ==> Used(DropRegion(s, k))
  {}

  lemma DropObjectUsed(s: State, k: RegKey)
    requires k in s.regions && s.regions[k].source in s.store.links && s.refs.Keys == s.store.links.Keys
    requires s.store.links[s.regions[k].source].next != 0 ==> s.store.links[s.regions[k].source].next in s.refs
    ensures
      var n := s.store.links[s.regions[k].source].next;
      && (Used(s) ==> UsedBut(DropObject(s, k), {n}))
      && (n != 0 && (s.refs[n].count > 1 || s.store.links[n].kind == File) ==> (Used(s) ==> Used(DropObject(s, k))))
      && (n == 0 && 0 !in s.store.links ==> (Used(s) ==> Used(DropObject(s, k))))
  {}

  lemma RemoveUsed(s: State, n: ObjId)
    ensures UsedBut(s, {n}) ==> Used(RemoveObject(s, n))
  {}

  lemma CombinedUsed(s: State, k: RegKey, n: ObjId, top: ObjId, s': State)
    requires CanCombine(s.store.links, s.regions, k, n, top) && IsCombined(s, k, n, top, s')
    ensures Used(s) ==> Used(s')
  {}

  // A source with one reference is referred to by the region alone.
  lemma CountOf(links: Links, regions: Regions, refs: map<ObjId, Refs>, k: RegKey)
    requires RefsOk(links, regions, refs) && k in regions && regions[k].source in links
    ensures refs[regions[k].source].count >= 1
    ensures refs[regions[k].source].count == 1 ==>
              RegRefs(regions, regions[k].source) == {k} && ObjRefs(links, regions[k].source) == {}
  {
    var o := regions[k].source;
    assert RefOk(links, regions, o, refs[o]);
    assert k in RegRefs(regions, o);
    if refs[o].count == 1 {
      assert |RegRefs(regions, o) - {k}| == 0;
    }
  }

  lemma SameViewsTransitive(m1: Store, m2: Store, m3: Store, regions: Regions)
    requires SameViews(m1, regions, m2, regions) && SameViews(m2, regions, m3, regions)
    ensures SameViews(m1, regions, m3, regions)
  {
    forall k | k in regions ensures SameRegion(m1, regions[k], m3, regions[k]) {
      assert SameRegion(m1, regions[k], m2, regions[k]) && SameRegion(m2, regions[k], m3, regions[k]);
      forall n ensures Value(m3, regions[k].source, n) == Value(m1, regions[k].source, n) {
        assert Value(m2, regions[k].source, n) == Value(m1, regions[k].source, n);
      }
    }
  }

  lemma NoCountNoRefs(links: Links, regions: Regions, refs: map<ObjId, Refs>, n: ObjId)
    requires RefsOk(links, regions, refs) && n in links && refs[n].count == 0
    ensures RegRefs(regions, n) == {} && ObjRefs(links, n) == {}
  {
    assert RefOk(links, regions, n, refs[n]);
  }

  // The object below is a file or anonymous: vm_object_free goes on to it, and no further.
  lemma DetachAboveBottom(s: State, k: RegKey, n: ObjId)
    requires Inv(s) && k in s.regions && s.regions[k].source in s.store.links && s.refs.Keys == s.store.links.Keys
    requires RegRefs(s.regions, s.regions[k].source) == {k} && ObjRefs(s.store.links, s.regions[k].source) == {}
    requires s.store.links[s.regions[k].source].kind == Shadow && s.refs[s.regions[k].source].count == 1
    requires n == s.store.links[s.regions[k].source].next && n in s.store.links && n != 0
    requires s.store.links[n].kind != Shadow && s.store.links[n].next == 0 && s.refs[n].count >= 1
    ensures Detached(s, k, Detach(s, k))
  {
    hide RefsOk, RegionsOk, PtOk, FilesOk, FramesDistinct, Backed, SameViews, Used, UsedBut, Detach;
    var o := s.regions[k].source;
    var s2 := DropObject(s, k);
    DropObjectKeeps(s, k);
    DropObjectUsed(s, k);
    if s.refs[n].count > 1 || s.store.links[n].kind == File {
      KeepBottom(s, k, n);
      RemoveReferers(s.store.links, o);
    } else {
      RemoveTwoReferers(s.store.links, o, n);
      NoCountNoRefs(s2.store.links, s2.regions, s2.refs, n);
      RemoveOrphanKeeps(s2, n);
      RemoveTwice(s, k, n);
      RemoveUsed(s2, n);
      SameViewsTransitive(s.store, s2.store, RemoveObject(s2, n).store, s2.regions);
    }
  }

  // The call of vm_object_free on the object below, in the state the outer call has reached.
  function Inner(s: State, k: RegKey): State
    requires k in s.regions && s.regions[k].source in s.refs
  {
    var r := s.regions[k];
    s.(regions := s.regions - {k}, pt := Unmapped(s.pt, k.pid, r.first, r.last),
       refs := s.refs[r.source := s.refs[r.source].(count := 0)])
  }

  lemma KeepBottom(s: State, k: RegKey, n: ObjId)
    requires Ranked(s.store.links) && k in s.regions && s.regions[k].source in s.store.links
    requires s.refs.Keys == s.store.links.Keys && s.refs[s.regions[k].source].count == 1
    requires s.store.links[s.regions[k].source].kind == Shadow
    requires n == s.store.links[s.regions[k].source].next && n in s.store.links && n != 0
    requires s.store.links[n].kind != Shadow && s.store.links[n].next == 0
    requires s.refs[n].count > 1 || s.store.links[n].kind == File
    ensures Detach(s, k) == Some(DropObject(s, k))
  {
    var o, c := s.regions[k].source, s.refs[n].(count := s.refs[n].count - 1);
    assert Release(Inner(s, k), n) == Some(Inner(s, k).(refs := Inner(s, k).refs[n := c]));
    assert s.refs[o := s.refs[o].(count := 0)][n := c] - {o} == s.refs[n := c] - {o};
  }

  lemma RemoveTwice(s: State, k: RegKey, n: ObjId)
    requires Ranked(s.store.links) && k in s.regions && s.regions[k].source in s.store.links
    requires s.refs.Keys == s.store.links.Keys && s.refs[s.regions[k].source].count == 1
    requires s.store.links[s.regions[k].source].kind == Shadow
    requires n == s.store.links[s.regions[k].source].next && n in s.store.links && n != 0
    requires s.store.links[n].kind == Anonymous && s.store.links[n].next == 0 && s.refs[n].count == 1
    ensures Detach(s, k) == Some(RemoveObject(DropObject(s, k), n))
  {
    var o, c := s.regions[k].source, s.refs[n].(count := 0);
    assert Release(Inner(s, k), n) == Some(RemoveObject(Inner(s, k).(refs := Inner(s, k).refs[n := c]), n));
    assert s.store.links - {o} - {n} == s.store.links - {n} - {o};
    assert s.store.pages - {o} - {n} == s.store.pages - {n} - {o};
    assert s.refs[o := s.refs[o].(count := 0)][n := c] - {n} - {o} == s.refs[n := c] - {o} - {n};
  }

  // The object below is a shadow: vm_object_combine merges it into its other referer.
  lemma DetachAboveShadow(s: State, k: RegKey, n: ObjId)
    requires Inv(s) && k in s.regions && s.regions[k].source in s.store.links && s.refs.Keys == s.store.links.Keys
    requires RegRefs(s.regions, s.regions[k].source) == {k} && ObjRefs(s.store.links, s.regions[k].source) == {}
    requires s.store.links[s.regions[k].source].kind == Shadow && s.refs[s.regions[k].source].count == 1
    requires n == s.store.links[s.regions[k].source].next && n in s.store.links && n != 0
    requires s.store.links[n].kind == Shadow
    ensures Detached(s, k, Detach(s, k))
  {
    hide RefsOk, RegionsOk, PtOk, FilesOk, FramesDistinct, Backed, SameViews;
    var o, top := s.regions[k].source, OtherRef(s.refs[n], s.regions[k].source);
    CombineReady(s.store.links, s.regions, s.refs, k, n);
    var s' := RemoveObject(Combine(Inner(s, k), n, top), o);
    assert Detach(s, k) == Some(s');
    CombinedIs(s, k, n, top);
    CombinedUsed(s, k, n, top, s');
    CombineKeeps(s, k, n, top, s');
    CombineReferers(s.store.links, s.regions, k, n, top);
  }

  lemma CombineReady(links: Links, regions: Regions, refs: map<ObjId, Refs>, k: RegKey, n: ObjId)
    requires Ranked(links) && RefsOk(links, regions, refs) && RegionsOk(links, regions)
    requires k in regions && regions[k].source in links && n == links[regions[k].source].next && n in links && n != 0
    requires RegRefs(regions, regions[k].source) == {k} && ObjRefs(links, regions[k].source) == {}
    requires links[regions[k].source].kind == Shadow && links[n].kind == Shadow
    ensures refs[n].count == 2 && CanCombine(links, regions, k, n, OtherRef(refs[n], regions[k].source))
  {
    var o, top := regions[k].source, OtherRef(refs[n], regions[k].source);
    BelowHasNoRegions(links, regions, refs, n, o);
    assert RefOk(links, regions, n, refs[n]);
    assert o in ObjRefs(links, n);
    assert ObjRefs(links, n) == {o, top};
    assert top in ObjRefs(links, n);
    assert RefOk(links, regions, top, refs[top]);
  }

  lemma CombinedIs(s: State, k: RegKey, n: ObjId, top: ObjId)
    requires Ranked(s.store.links) && CanCombine(s.store.links, s.regions, k, n, top)
    requires s.refs.Keys == s.store.links.Keys
    ensures IsCombined(s, k, n, top, RemoveObject(Combine(Inner(s, k), n, top), s.regions[k].source))
  {
    hide Merge, CombinedLinks, CombinedPages, Ranked, Unmapped;
    var o, y := s.regions[k].source, s.store.links[n].next;
    BelowDiffer(s.store.links, o, n, top);
    LinksApart(s.store.links, o, n, top);
    PagesApartFrom(s.store.pages, o, n, top);
    CombinedKinds(s.store.links, n, top);
  }

  lemma BelowDiffer(links: Links, o: ObjId, n: ObjId, top: ObjId)
    requires Ranked(links) && o in links && n in links && top in links
    requires links[o].next == n && links[top].next == n && n != 0 && links[n].next != 0
    ensures n != o && n != top && links[n].next != n && links[n].next != o && links[n].next != top
  {
    assert links[n].birth < links[top].birth && links[n].birth < links[o].birth;
    assert links[links[n].next].birth < links[n].birth;
  }

  // Removing an object and combining two others can be done in either order.
  lemma LinksApart(links: Links, o: ObjId, n: ObjId, top: ObjId)
    requires n in links && top in links && o != n && o != top
    ensures CombinedLinks(links, n, top) - {o} == CombinedLinks(links - {o}, n, top)
  {}

  lemma PagesApartFrom(pages: Pages, o: ObjId, n: ObjId, top: ObjId)
    requires o != n && o != top
    ensures CombinedPages(pages, n, top) - {o} == CombinedPages(pages - {o}, n, top)
  {
    hide Merge;
    assert ChainOf(pages - {o}, n) == ChainOf(pages, n) && ChainOf(pages - {o}, top) == ChainOf(pages, top);
  }

  // vm_region_detach never panics, keeps the invariant, and changes nothing that other regions show.
  lemma DetachKeeps(s: State, k: RegKey)
    requires Inv(s) && k in s.regions && s.regions[k].source in s.store.links && s.refs.Keys == s.store.links.Keys
    ensures Detached(s, k, Detach(s, k))
  {
    hide RefsOk, RegionsOk, PtOk, FilesOk, FramesDistinct, Backed, Detached;
    var o := s.regions[k].source;
    var n := s.store.links[o].next;
    ShapeOf(s.store.links, s.regions, s.refs, k);
    CountOf(s.store.links, s.regions, s.refs, k);
    if n == 0 {
      DetachAnonymousOrFile(s, k);
    } else {
      SoleCount(s.store.links, s.regions, s.refs, k);
      if s.store.links[n].kind == Shadow {
        DetachAboveShadow(s, k, n);
      } else {
        BottomCount(s.store.links, s.regions, s.refs, o, n);
        DetachAboveBottom(s, k, n);
      }
    }
  }

  lemma SoleCount(links: Links, regions: Regions, refs: map<ObjId, Refs>, k: RegKey)
    requires RefsOk(links, regions, refs) && RegionsOk(links, regions) && k in regions && regions[k].source in links
    requires links[regions[k].source].kind == Shadow
    ensures RegRefs(regions, regions[k].source) == {k} && ObjRefs(links, regions[k].source) == {}
    ensures refs[regions[k].source].count == 1
  {
    ShapeOf(links, regions, refs, k);
    assert RefOk(links, regions, regions[k].source, refs[regions[k].source]);
  }

  lemma BottomCount(links: Links, regions: Regions, refs: map<ObjId, Refs>, o: ObjId, n: ObjId)
    requires RefsOk(links, regions, refs) && o in links && n in links && links[o].next == n && links[n].kind != Shadow
    ensures refs[n].count >= 1 && links[n].next == 0
  {
    assert RefOk(links, regions, n, refs[n]);
    assert o in ObjRefs(links, n);
  }

  // ---------------------------------------------------------------- no garbage

  // With no regions left, only cached files are left: any other object would need a newer user.
  lemma {:induction false} OnlyFilesLeft(s: State, o: ObjId)
    requires Inv(s) && Used(s) && s.regions == map[] && o in s.store.links
    ensures s.store.links[o].kind == File
    decreases s.clock - s.store.links[o].birth
  {
    forall x | x in s.store.links ensures s.store.links[x].next != o {
      if s.store.links[x].birth > s.store.links[o].birth {
        OnlyFilesLeft(s, x);
        assert RefOk(s.store.links, s.regions, x, s.refs[x]);
      }
    }
    assert RefOk(s.store.links, s.regions, o, s.refs[o]);
    assert RegRefs(s.regions, o) == {} && ObjRefs(s.store.links, o) == {};
  }
}
