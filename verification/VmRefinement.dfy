/** The shadow chains implement memory in which fork copies everything at once. */
module VmRefinement {
  import opened Basics
  import opened VmObjects
  import opened VmModel
  import opened VmInvariants
  import opened VmFork
  import opened VmDetach

  // ---------------------------------------------------------------- stores

  lemma {:induction false} FrameOnce(chain: seq<PageRef>, p: PageRef, q: PageRef)
    requires NoDup(chain) && p in chain && q in chain && p.frame == q.frame
    ensures p == q
  {
    if p == chain[0] || q == chain[0] {
      if p in chain[1..] { FrameIn(chain[1..], p); }
      if q in chain[1..] { FrameIn(chain[1..], q); }
    } else {
      FrameOnce(chain[1..], p, q);
    }
  }

  lemma SameChain(pages: Pages, x: ObjId, o: ObjId, f: Frame)
    requires FramesDistinct(pages) && x in pages && o in pages && f in Frames(pages[x]) && f in Frames(pages[o])
    ensures x == o
  {
    assert f in Frames(pages[x]) * Frames(pages[o]);
  }

  // A frame on the chain of an object that region k may write is shown by region k only, and there as one page only.
  lemma PrivateFrame(m: Store, regions: Regions, k: RegKey, n: nat, k': RegKey, n': nat)
    requires StoreOk(m) && RegionsOk(m.links, regions) && InPlaceOk(m.links, regions) && k in regions && k' in regions
    requires RegionOk(m.links, regions, k) && Private(m.links[regions[k].source], regions[k])
    requires FindIn(ChainOf(m.pages, regions[k].source), n).Some? && InPages(regions[k], n) && InPages(regions[k'], n')
    requires RegionOk(m.links, regions, k')
    requires Find(m.links, m.pages, regions[k'].source, n') == FindIn(ChainOf(m.pages, regions[k].source), n)
    ensures k' == k && n' == n
  {
    var o, f := regions[k].source, FindIn(ChainOf(m.pages, regions[k].source), n).value;
    var x := FindWitness(m.links, m.pages, regions[k'].source, n');
    FindInWitness(m.pages[o], n);
    FindInWitness(m.pages[x], n');
    SameChain(m.pages, x, o, f);
    FrameOnce(m.pages[o], PageRef(n, f), PageRef(n', f));
    OnlyUser(m.links, regions, k, k', n);
    forall y | y in m.links ensures m.links[y].next != o { assert y !in ObjRefs(m.links, o); }
  }

  // No other region of that object shows page n.
  lemma OnlyUser(links: Links, regions: Regions, k: RegKey, k': RegKey, n: nat)
    requires InPlaceOk(links, regions) && k in regions && k' in regions && InPages(regions[k], n)
    requires InPages(regions[k'], n)
    requires RegionOk(links, regions, k) && Private(links[regions[k].source], regions[k])
    ensures ObjRefs(links, regions[k].source) == {}
    ensures regions[k'].source == regions[k].source ==> k' == k
  {
    if InPlace(regions[k]) { assert SoleUse(links, regions, k); }
    assert regions[k'].source == regions[k].source ==> k' in RegRefs(regions, regions[k].source);
  }

  // After a store through region k, page n of region k has the new byte and nothing else changed.
  ghost predicate StoredViews(m: Store, regions: Regions, k: RegKey, n: nat, off: nat, b: Byte, m': Store) {
    && Ranked(m.links) && Ranked(m'.links) && off < PAGESIZE && k in regions && regions[k].source in m.links
    && m'.links == m.links && Value(m, regions[k].source, n).Some?
    && forall k', n' :: k' in regions && regions[k'].source in m.links && InPages(regions[k'], n') ==>
         Value(m', regions[k'].source, n') ==
         if k' == k && n' == n then Some(Value(m, regions[k].source, n).value[off := b])
         else Value(m, regions[k'].source, n')
  }

  lemma StoreViews(m: Store, regions: Regions, k: RegKey, n: nat, f: Frame, off: nat, b: Byte)
    requires StoreOk(m) && RegionsOk(m.links, regions) && InPlaceOk(m.links, regions) && k in regions && off < PAGESIZE
    requires RegionOk(m.links, regions, k) && Private(m.links[regions[k].source], regions[k]) && InPages(regions[k], n)
    requires FindIn(ChainOf(m.pages, regions[k].source), n) == Some(f)
    requires Find(m.links, m.pages, regions[k].source, n) == Some(f)
    ensures StoredViews(m, regions, k, n, off, b, m.(mem := m.mem[f := Contents(m.mem, f)[off := b]]))
  {
    hide StoreOk, RegionsOk, InPlaceOk;
    var m' := m.(mem := m.mem[f := Contents(m.mem, f)[off := b]]);
    assert Ranked(m.links) by { StoreRanked(m); }
    forall k', n': nat | k' in regions && regions[k'].source in m.links && InPages(regions[k'], n')
      ensures Value(m', regions[k'].source, n') ==
              if k' == k && n' == n then Some(Value(m, regions[k].source, n).value[off := b])
              else Value(m, regions[k'].source, n')
    {
      if Find(m.links, m.pages, regions[k'].source, n') == Some(f) {
        IsRegionOk(m.links, regions, k');
        PrivateFrame(m, regions, k, n, k', n');
      }
    }
  }

  lemma StoreRanked(m: Store)
    requires StoreOk(m)
    ensures Ranked(m.links)
  {}

  lemma IsRegionOk(links: Links, regions: Regions, k: RegKey)
    requires RegionsOk(links, regions) && k in regions
    ensures RegionOk(links, regions, k) && RegionsApart(regions)
  {
    assert RegionOk(links, regions, k);
  }

  lemma StoreFilesOk(m: Store, vmobj: map<nat, ObjId>, o: ObjId, n: nat, f: Frame, c: Page)
    requires StoreOk(m) && FilesOk(m, vmobj) && o in m.links && m.links[o].kind != File
    requires FindIn(ChainOf(m.pages, o), n) == Some(f)
    ensures FilesOk(m.(mem := m.mem[f := c]), vmobj)
  {
    var m' := m.(mem := m.mem[f := c]);
    FindInWitness(m.pages[o], n);
    forall x | x in m.links && m.links[x].kind == File
      ensures HoldsFile(m.links[x], ChainOf(m.pages, x), m'.mem, m.files)
    {
      assert HoldsFile(m.links[x], ChainOf(m.pages, x), m.mem, m.files);
      if x in m.pages { assert Frames(m.pages[x]) !! Frames(m.pages[o]); }
      forall p | p in ChainOf(m.pages, x) ensures p.frame != f { FrameIn(ChainOf(m.pages, x), p); }
    }
  }

  lemma EntryOf(s: State, k: RegKey, e: PageKey)
    requires Inv(s) && e in s.pt && Covers(s.regions, k, e)
    ensures EntryOk(s.store.links, s.store.pages, s.regions[k], e.vp, s.pt[e])
    ensures RegionOk(s.store.links, s.regions, k)
  {
    IsRegionOk(s.store.links, s.regions, k);
  }

  lemma StoreKeeps(s: State, k: RegKey, e: PageKey, off: nat, b: Byte)
    requires Inv(s) && InPlaceOk(s.store.links, s.regions)
    requires e in s.pt && Covers(s.regions, k, e) && s.pt[e].writable && off < PAGESIZE
    ensures var s' := StoreByte(s, s.pt[e].frame, off, b);
      Inv(s') && StoredViews(s.store, s.regions, k, PageNr(s.regions[k], e.vp), off, b, s'.store)
  {
    hide RefsOk, RegionsOk, PtOk, FilesOk, StoredViews, InPlaceOk;
    EntryOf(s, k, e);
    var n := PageNr(s.regions[k], e.vp);
    StoreViews(s.store, s.regions, k, n, s.pt[e].frame, off, b);
    StoreFilesOk(s.store, s.vmobj, s.regions[k].source, n, s.pt[e].frame,
                 Contents(s.store.mem, s.pt[e].frame)[off := b]);
  }
}
