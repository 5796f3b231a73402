/** Every operation of VmModel keeps the invariant, and what each does to the contents regions show. */
module VmInvariants {
  import opened Basics
  import opened VmObjects
  import opened VmModel

  // Objects o of m and o' of m' show the same pages.
  ghost predicate SameValues(m: Store, o: ObjId, m': Store, o': ObjId) {
    && Ranked(m.links) && Ranked(m'.links) && o in m.links && o' in m'.links
    && forall n :: Value(m', o', n) == Value(m, o, n)
  }

  // Regions that occupy the same pages with the same rights and show the same contents.
  ghost predicate SameRegion(m: Store, r: Region, m': Store, r': Region) {
    r'.(source := r.source, cow := r.cow) == r && SameValues(m, r.source, m', r'.source)
  }

  ghost predicate SameViews(m: Store, regions: Regions, m': Store, regions': Regions) {
    && regions'.Keys == regions.Keys
    && forall k :: k in regions ==> SameRegion(m, regions[k], m', regions'[k])
  }

  lemma SameObjectsSameViews(m: Store, m': Store, links: Links, regions: Regions)
    requires RegionsOk(links, regions) && links.Keys == m.links.Keys
    requires forall o :: o in m.links ==> SameValues(m, o, m', o)
    ensures SameViews(m, regions, m', regions)
  {
    forall k | k in regions ensures SameRegion(m, regions[k], m', regions[k]) {
      assert RegionOk(links, regions, k);
    }
  }

  // ---------------------------------------------------------------- pushing a page

  lemma FoundInMem(m: Store, o: ObjId, n: nat)
    requires StoreOk(m) && o in m.links && Find(m.links, m.pages, o, n).Some?
    ensures Find(m.links, m.pages, o, n).value in m.mem
    ensures !FreshFrame(m.pages, Find(m.links, m.pages, o, n).value)
  {
    var x := FindWitness(m.links, m.pages, o, n);
  }

  lemma PushStoreOk(m: Store, t: ObjId, n: nat, f: Frame, c: Page)
    requires StoreOk(m) && t in m.links && FreshFrame(m.pages, f)
    ensures StoreOk(PushPage(m, t, n, f, c))
  {
    FramesCons(PageRef(n, f), ChainOf(m.pages, t));
  }

  lemma PushFilesOk(m: Store, vmobj: map<nat, ObjId>, t: ObjId, n: nat, f: Frame, c: Page)
    requires FilesOk(m, vmobj) && t in m.links && FreshFrame(m.pages, f)
    requires m.links[t].kind == File ==> Initial(m.files, m.links[t], n) == Some(c)
    ensures FilesOk(PushPage(m, t, n, f, c), vmobj)
  {
    var m' := PushPage(m, t, n, f, c);
    forall o | o in m.links && m.links[o].kind == File
      ensures HoldsFile(m.links[o], ChainOf(m'.pages, o), m'.mem, m.files)
    {
      assert HoldsFile(m.links[o], ChainOf(m.pages, o), m.mem, m.files);
      forall p | p in ChainOf(m.pages, o) ensures p.frame != f { FrameIn(ChainOf(m.pages, o), p); }
    }
  }

  // Pushing what lookup gives anyway changes no value.
  lemma PushValue(m: Store, t: ObjId, n: nat, f: Frame, c: Page, o: ObjId)
    requires StoreOk(m) && t in m.links && o in m.links && FreshFrame(m.pages, f)
    requires Value(m, t, n) == Some(c)
    ensures SameValues(m, o, PushPage(m, t, n, f, c), o)
  {
    forall x ensures Value(PushPage(m, t, n, f, c), o, x) == Value(m, o, x) {
      PushFind(m.links, m.pages, t, PageRef(n, f), o, x);
      if Find(m.links, m.pages, o, x).Some? { FoundInMem(m, o, x); }
    }
  }

  lemma PushViews(m: Store, regions: Regions, t: ObjId, n: nat, f: Frame, c: Page)
    requires StoreOk(m) && t in m.links && FreshFrame(m.pages, f) && RegionsOk(m.links, regions)
    requires Value(m, t, n) == Some(c)
    ensures SameViews(m, regions, PushPage(m, t, n, f, c), regions)
  {
    forall o | o in m.links ensures SameValues(m, o, PushPage(m, t, n, f, c), o) { PushValue(m, t, n, f, c, o); }
    SameObjectsSameViews(m, PushPage(m, t, n, f, c), m.links, regions);
  }

  // Entries that stay right when a page is pushed: all, if the chain had no such page; all but the pushed
  // page's, if no object leads to t.
  lemma PushEntry(links: Links, pages: Pages, t: ObjId, p: PageRef, r: Region, vp: nat, e: Pte)
    requires t in links && EntryOk(links, pages, r, vp, e)
    requires
      || Find(links, pages, t, p.nr).None?
      || (ObjRefs(links, t) == {} && (r.source == t ==> PageNr(r, vp) != p.nr))
    ensures EntryOk(links, Pushed(pages, t, p), r, vp, e)
  {
    PushFind(links, pages, t, p, r.source, PageNr(r, vp));
    forall x | x in links && ObjRefs(links, t) == {} ensures links[x].next != t {
      assert x !in ObjRefs(links, t);
    }
    FramesCons(p, ChainOf(pages, t));
  }

  // ---------------------------------------------------------------- references

  lemma RedirectRefs(regions: Regions, k: RegKey, r: Region, x: ObjId)
    ensures RegRefs(regions[k := r], x) == RegRefs(regions, x) - {k} + (if r.source == x then {k} else {})
  {}

  lemma AddLinkRefs(links: Links, t: ObjId, l: Link, x: ObjId)
    requires t !in links
    ensures ObjRefs(links[t := l], x) == ObjRefs(links, x) + (if l.next == x then {t} else {})
  {}

  lemma FreshHasNoRefs(links: Links, regions: Regions, t: ObjId)
    requires Ranked(links) && RegionsOk(links, regions) && t !in links && t != 0
    ensures RegRefs(regions, t) == {} && ObjRefs(links, t) == {}
  {
    forall k | k in regions ensures regions[k].source != t { assert RegionOk(links, regions, k); }
    forall x | x in links ensures links[x].next != t { assert links[x].next == 0 || links[x].next in links; }
  }

  // ---------------------------------------------------------------- page-table entries

  lemma CoverUnique(regions: Regions, k: RegKey, k': RegKey, e: PageKey)
    requires RegionsApart(regions) && Covers(regions, k, e) && Covers(regions, k', e)
    ensures k == k'
  {
    assert k == k' || Apart(regions[k], regions[k']);
  }

  // Setting the entry of e, given that all other entries are right.
  lemma MapOk(links: Links, pages: Pages, regions: Regions, pt: PageTables, k: RegKey, e: PageKey, pte: Pte)
    requires RegionsApart(regions) && Covers(regions, k, e) && EntryOk(links, pages, regions[k], e.vp, pte)
    requires forall e' :: e' in pt ==> exists k' :: Covers(regions, k', e')
    requires forall e', k' :: e' in pt && e' != e && Covers(regions, k', e') ==>
                                EntryOk(links, pages, regions[k'], e'.vp, pt[e'])
    ensures PtOk(links, pages, regions, pt[e := pte])
  {
    var pt' := pt[e := pte];
    forall e', k' | e' in pt' && Covers(regions, k', e')
      ensures EntryOk(links, pages, regions[k'], e'.vp, pt'[e'])
    {
      if e' == e { CoverUnique(regions, k, k', e); }
    }
  }

  lemma ShapeOf(links: Links, regions: Regions, refs: map<ObjId, Refs>, k: RegKey)
    requires RefsOk(links, regions, refs) && RegionsOk(links, regions) && k in regions
    ensures RegionsApart(regions) && RegionOk(links, regions, k) && refs.Keys == links.Keys
    ensures links[regions[k].source].kind == Shadow <==> links[regions[k].source].next != 0
  {
    assert RegionOk(links, regions, k);
    assert RefOk(links, regions, regions[k].source, refs[regions[k].source]);
  }

  // ---------------------------------------------------------------- page faults

  // The bottom object has no page n if the chain has none; a page pushed there is then what lookup gives.
  lemma {:induction false} PushBottom(links: Links, pages: Pages, o: ObjId, p: PageRef)
    requires Ranked(links) && o in links && Find(links, pages, o, p.nr).None?
    ensures Find(links, pages, Bottom(links, o), p.nr).None?
    ensures Find(links, Pushed(pages, Bottom(links, o), p), o, p.nr) == Some(p.frame)
    decreases links[o].birth
  {
    FramesCons(p, ChainOf(pages, Bottom(links, o)));
    if links[o].next != 0 {
      PushBottom(links, pages, links[o].next, p);
      BottomIsOlder(links, links[o].next);
    }
  }

  lemma {:induction false} BottomIsOlder(links: Links, o: ObjId)
    requires Ranked(links) && o in links
    ensures links[Bottom(links, o)].birth <= links[o].birth
    ensures Bottom(links, Bottom(links, o)) == Bottom(links, o)
    decreases links[o].birth
  {
    if links[o].next != 0 { BottomIsOlder(links, links[o].next); }
  }

  function PageInTarget(links: Links, o: ObjId): ObjId
    requires Ranked(links) && o in links
  {
    if links[Bottom(links, o)].kind == Anonymous then o else Bottom(links, o)
  }

  lemma PageInPtOk(links: Links, pages: Pages, regions: Regions, pt: PageTables, k: RegKey, vp: nat, f: Frame)
    requires Ranked(links) && RegionsApart(regions) && PtOk(links, pages, regions, pt)
    requires Covers(regions, k, PageKey(k.pid, vp)) && RegionOk(links, regions, k)
    requires links[regions[k].source].kind == Anonymous ==> links[regions[k].source].next == 0
    requires Find(links, pages, regions[k].source, PageNr(regions[k], vp)).None?
    ensures var r := regions[k];
      PtOk(links, Pushed(pages, PageInTarget(links, r.source), PageRef(PageNr(r, vp), f)), regions,
           pt[PageKey(k.pid, vp) := Pte(f, r.writable && !r.cow)])
  {
    var r, n := regions[k], PageNr(regions[k], vp);
    var t, p := PageInTarget(links, r.source), PageRef(n, f);
    PushBottom(links, pages, r.source, p);
    PushFind(links, pages, t, p, r.source, n);
    FramesCons(p, ChainOf(pages, t));
    var pages' := Pushed(pages, t, p);
    forall e, k' | e in pt && Covers(regions, k', e) ensures EntryOk(links, pages', regions[k'], e.vp, pt[e]) {
      PushEntry(links, pages, t, p, regions[k'], e.vp, pt[e]);
    }
    MapOk(links, pages', regions, pt, k, PageKey(k.pid, vp), Pte(f, r.writable && !r.cow));
  }

  lemma PageInKeeps(s: State, k: RegKey, vp: nat, f: Frame)
    requires Inv(s) && Covers(s.regions, k, PageKey(k.pid, vp)) && FreshFrame(s.store.pages, f)
    requires s.regions[k].source in s.store.links
    requires Find(s.store.links, s.store.pages, s.regions[k].source, PageNr(s.regions[k], vp)).None?
    requires PageIn(s, k, vp, f).Done?
    ensures var s' := PageIn(s, k, vp, f).s; Inv(s') && SameViews(s.store, s.regions, s'.store, s'.regions)
  {
    hide RefsOk, RegionsOk, PtOk, FilesOk, FramesDistinct, Backed;
    var m, r, n := s.store, s.regions[k], PageNr(s.regions[k], vp);
    var c := Initial(m.files, m.links[Bottom(m.links, r.source)], n).value;
    var t := PageInTarget(m.links, r.source);
    PushBottom(m.links, m.pages, r.source, PageRef(n, f));
    BottomIsOlder(m.links, r.source);
    ShapeOf(m.links, s.regions, s.refs, k);
    PushStoreOk(m, t, n, f, c);
    PushFilesOk(m, s.vmobj, t, n, f, c);
    PageInPtOk(m.links, m.pages, s.regions, s.pt, k, vp, f);
    PushViews(m, s.regions, t, n, f, c);
  }

  // Case B with a shadow already in place.
  lemma CopyPtOk(links: Links, pages: Pages, regions: Regions, pt: PageTables, k: RegKey, vp: nat, f: Frame)
    requires Ranked(links) && RegionsApart(regions) && PtOk(links, pages, regions, pt)
    requires Covers(regions, k, PageKey(k.pid, vp)) && RegionOk(links, regions, k)
    requires links[regions[k].source].kind == Shadow
    ensures PtOk(links, Pushed(pages, regions[k].source, PageRef(PageNr(regions[k], vp), f)), regions,
                 pt[PageKey(k.pid, vp) := Pte(f, true)])
  {
    var r, n := regions[k], PageNr(regions[k], vp);
    var t, p := r.source, PageRef(n, f);
    PushFind(links, pages, t, p, t, n);
    FramesCons(p, ChainOf(pages, t));
    var pages' := Pushed(pages, t, p);
    var e := PageKey(k.pid, vp);
    forall e', k' | e' in pt && e' != e && Covers(regions, k', e')
      ensures EntryOk(links, pages', regions[k'], e'.vp, pt[e'])
    {
      if regions[k'].source == t { assert k' in RegRefs(regions, t); }
      PushEntry(links, pages, t, p, regions[k'], e'.vp, pt[e']);
    }
    MapOk(links, pages', regions, pt, k, e, Pte(f, true));
  }

  lemma CopyToShadowKeeps(s: State, k: RegKey, vp: nat, f: Frame, c: Page)
    requires Inv(s) && Covers(s.regions, k, PageKey(k.pid, vp)) && FreshFrame(s.store.pages, f)
    requires RegionOk(s.store.links, s.regions, k) && s.store.links[s.regions[k].source].kind == Shadow
    requires Value(s.store, s.regions[k].source, PageNr(s.regions[k], vp)) == Some(c)
    ensures
      var m' := PushPage(s.store, s.regions[k].source, PageNr(s.regions[k], vp), f, c);
      Inv(MapEntry(s.(store := m'), PageKey(k.pid, vp), f, true)) && SameViews(s.store, s.regions, m', s.regions)
  {
    hide RefsOk, RegionsOk, PtOk, FilesOk, FramesDistinct, Backed;
    ShapeOf(s.store.links, s.regions, s.refs, k);
    var m, t, n := s.store, s.regions[k].source, PageNr(s.regions[k], vp);
    PushStoreOk(m, t, n, f, c);
    PushFilesOk(m, s.vmobj, t, n, f, c);
    CopyPtOk(m.links, m.pages, s.regions, s.pt, k, vp, f);
    PushViews(m, s.regions, t, n, f, c);
  }

  // ---------------------------------------------------------------- new shadows

  // Objects that existed before a new object t are looked up as before.
  lemma NewObjectValues(m: Store, t: ObjId, l: Link, o: ObjId)
    requires StoreOk(m) && t !in m.links && t != 0 && o in m.links
    requires l.next == 0 || (l.next in m.links && m.links[l.next].birth < l.birth)
    ensures StoreOk(NewObject(m, t, l)) && SameValues(m, o, NewObject(m, t, l), o)
  {
    var m' := NewObject(m, t, l);
    assert Ranked(m'.links);
    forall n ensures Value(m', o, n) == Value(m, o, n) {
      Below(m.links, m.pages, m'.links, m'.pages, o, n);
    }
  }

  // An empty shadow shows what lies below it.
  lemma NewShadowValues(m: Store, t: ObjId, l: Link)
    requires StoreOk(m) && t !in m.links && t != 0
    requires l.next in m.links && m.links[l.next].birth < l.birth
    ensures StoreOk(NewObject(m, t, l)) && SameValues(m, l.next, NewObject(m, t, l), t)
  {
    NewObjectValues(m, t, l, l.next);
    var m' := NewObject(m, t, l);
    assert ChainOf(m'.pages, t) == [];
    forall n ensures Find(m'.links, m'.pages, t, n) == Find(m'.links, m'.pages, l.next, n) {}
  }

  lemma NewObjectEntry(m: Store, t: ObjId, l: Link, r: Region, vp: nat, e: Pte)
    requires StoreOk(m) && t !in m.links && t != 0
    requires l.next == 0 || (l.next in m.links && m.links[l.next].birth < l.birth)
    requires EntryOk(m.links, m.pages, r, vp, e)
    ensures EntryOk(NewObject(m, t, l).links, m.pages, r, vp, e)
  {
    NewObjectValues(m, t, l, r.source);
    Below(m.links, m.pages, NewObject(m, t, l).links, m.pages, r.source, PageNr(r, vp));
  }

  // Inserting a shadow t between region k and its source leaves every reference counted.
  lemma InsertShadowSets(links: Links, regions: Regions, k: RegKey, t: ObjId, l: Link, x: ObjId)
    requires k in regions && t !in links
    ensures RegRefs(regions[k := regions[k].(source := t)], x) ==
            RegRefs(regions, x) - {k} + (if x == t then {k} else {})
    ensures ObjRefs(links[t := l], x) == ObjRefs(links, x) + (if x == l.next then {t} else {})
    ensures t !in ObjRefs(links, x) && (k in RegRefs(regions, x) <==> x == regions[k].source)
  {
    RedirectRefs(regions, k, regions[k].(source := t), x);
    AddLinkRefs(links, t, l, x);
  }

  lemma InsertShadowRef(links: Links, regions: Regions, k: RegKey, t: ObjId, l: Link, x: ObjId, c: Refs)
    requires k in regions && t !in links && l.kind == Shadow && l.next == regions[k].source != 0
    requires if x == t then RegRefs(regions, t) == {} && ObjRefs(links, t) == {} && c == Refs(1, 0, 0) && l.next != t
             else x in links && RefOk(links, regions, x, c)
    requires x == l.next ==> links[x].kind != Shadow
    ensures RefOk(links[t := l], regions[k := regions[k].(source := t)], x, c)
  {
    InsertShadowSets(links, regions, k, t, l, x);
    if x != t && x != l.next {
      assert RegRefs(regions, x) - {k} == RegRefs(regions, x);
    }
  }

  lemma InsertShadowRefs(links: Links, regions: Regions, refs: map<ObjId, Refs>, k: RegKey, t: ObjId, l: Link)
    requires Ranked(links) && RefsOk(links, regions, refs) && RegionsOk(links, regions)
    requires k in regions && t !in links && t != 0 && l.kind == Shadow && l.next == regions[k].source
    requires regions[k].source in links && links[regions[k].source].kind != Shadow
    ensures RefsOk(links[t := l], regions[k := regions[k].(source := t)], refs[t := Refs(1, 0, 0)])
  {
    var links', regions', refs' := links[t := l], regions[k := regions[k].(source := t)], refs[t := Refs(1, 0, 0)];
    FreshHasNoRefs(links, regions, t);
    forall x | x in links' ensures RefOk(links', regions', x, refs'[x]) {
      InsertShadowRef(links, regions, k, t, l, x, refs'[x]);
    }
  }

  lemma InsertShadowRegions(links: Links, regions: Regions, k: RegKey, t: ObjId, l: Link)
    requires Ranked(links) && RegionsOk(links, regions)
    requires k in regions && regions[k].cow && t !in links && t != 0
    requires l.kind == Shadow && l.next == regions[k].source && l.next in links && links[l.next].kind != Shadow
    ensures RegionsOk(links[t := l], regions[k := regions[k].(source := t)])
  {
    var links', regions' := links[t := l], regions[k := regions[k].(source := t)];
    FreshHasNoRefs(links, regions, t);
    forall k' | k' in regions' ensures RegionOk(links', regions', k') {
      assert RegionOk(links, regions, k');
      InsertShadowSets(links, regions, k, t, l, regions'[k'].source);
    }
    forall k1, k2 | k1 in regions' && k2 in regions' && k1.pid == k2.pid && k1 != k2
      ensures Apart(regions'[k1], regions'[k2])
    {
      assert Apart(regions[k1], regions[k2]);
    }
  }

  // A region moved to a new shadow over its old source: entries stay right once they lose the write bit.
  lemma ShadowEntry(m: Store, t: ObjId, l: Link, r: Region, vp: nat, e: Pte)
    requires StoreOk(m) && t !in m.links && t != 0
    requires l.next == r.source && r.source in m.links && m.links[r.source].birth < l.birth
    requires EntryOk(m.links, m.pages, r, vp, e)
    ensures EntryOk(NewObject(m, t, l).links, m.pages, r.(source := t, cow := true), vp, e.(writable := false))
  {
    NewObjectValues(m, t, l, r.source);
    Below(m.links, m.pages, NewObject(m, t, l).links, m.pages, r.source, PageNr(r, vp));
    assert ChainOf(m.pages, t) == [];
  }

  lemma CopyNewEntry(m: Store, regions: Regions, k: RegKey, k': RegKey, vp: nat, e: Pte, t: ObjId, l: Link, p: PageRef)
    requires StoreOk(m) && k in regions && k' in regions && regions[k].cow
    requires t !in m.links && t != 0 && ObjRefs(m.links, t) == {} && regions[k'].source != t
    requires l.kind == Shadow && l.next == regions[k].source && l.next in m.links && m.links[l.next].kind != Shadow
    requires m.links[l.next].birth < l.birth
    requires EntryOk(m.links, m.pages, regions[k'], vp, e) && (k' == k ==> PageNr(regions[k], vp) != p.nr)
    ensures EntryOk(m.links[t := l], Pushed(m.pages, t, p), regions[k := regions[k].(source := t)][k'], vp, e)
  {
    AddLinkRefs(m.links, t, l, t);
    if k' == k {
      ShadowEntry(m, t, l, regions[k], vp, e);
    } else {
      NewObjectEntry(m, t, l, regions[k'], vp, e);
    }
    PushEntry(m.links[t := l], m.pages, t, p, regions[k := regions[k].(source := t)][k'], vp, e);
  }

  lemma CopyNewPtOk(m: Store, regions: Regions, pt: PageTables, k: RegKey, vp: nat, f: Frame, t: ObjId, l: Link)
    requires StoreOk(m) && RegionsOk(m.links, regions) && PtOk(m.links, m.pages, regions, pt)
    requires Covers(regions, k, PageKey(k.pid, vp)) && regions[k].cow && t !in m.links && t != 0
    requires l.kind == Shadow && l.next == regions[k].source && l.next in m.links && m.links[l.next].kind != Shadow
    requires m.links[l.next].birth < l.birth
    requires RegionsApart(regions[k := regions[k].(source := t)])
    ensures
      var r := regions[k];
      PtOk(m.links[t := l], Pushed(m.pages, t, PageRef(PageNr(r, vp), f)), regions[k := r.(source := t)],
           pt[PageKey(k.pid, vp) := Pte(f, true)])
  {
    hide FramesDistinct, Backed, Ranked, RegionsApart, Value, FindIn;
    var r, e, p := regions[k], PageKey(k.pid, vp), PageRef(PageNr(regions[k], vp), f);
    var regions' := regions[k := r.(source := t)];
    FreshHasNoRefs(m.links, regions, t);
    NewObjectValues(m, t, l, r.source);
    FramesCons(p, ChainOf(m.pages, t));
    forall e' | e' in pt ensures exists k' :: Covers(regions', k', e') {
      var k' :| Covers(regions, k', e');
      assert Covers(regions', k', e');
    }
    forall e', k' | e' in pt && e' != e && Covers(regions', k', e')
      ensures EntryOk(m.links[t := l], Pushed(m.pages, t, p), regions'[k'], e'.vp, pt[e'])
    {
      assert Covers(regions, k', e') && k' !in RegRefs(regions, t);
      CopyNewEntry(m, regions, k, k', e'.vp, pt[e'], t, l, p);
    }
    assert Covers(regions', k, e) && RegionOk(m.links, regions, k);
    MapOk(m.links[t := l], Pushed(m.pages, t, p), regions', pt, k, e, Pte(f, true));
  }

  lemma NewObjectFilesOk(m: Store, vmobj: map<nat, ObjId>, t: ObjId, l: Link)
    requires FilesOk(m, vmobj) && t !in m.links && l.kind != File
    ensures FilesOk(NewObject(m, t, l), vmobj)
  {
    forall o | o in m.links && m.links[o].kind == File
      ensures HoldsFile(m.links[o], ChainOf(m.pages, o), m.mem, m.files)
    {}
  }

  lemma CopyNewViews(m: Store, regions: Regions, k: RegKey, n: nat, f: Frame, c: Page, t: ObjId, l: Link)
    requires StoreOk(m) && FreshFrame(m.pages, f) && RegionsOk(m.links, regions) && k in regions
    requires t !in m.links && t != 0
    requires l.next == regions[k].source && l.next in m.links && m.links[l.next].birth < l.birth
    requires Value(m, l.next, n) == Some(c)
    ensures StoreOk(PushPage(NewObject(m, t, l), t, n, f, c))
    ensures SameViews(m, regions, PushPage(NewObject(m, t, l), t, n, f, c), regions[k := regions[k].(source := t)])
  {
    var m1 := NewObject(m, t, l);
    NewShadowValues(m, t, l);
    PushStoreOk(m1, t, n, f, c);
    PushValue(m1, t, n, f, c, t);
    forall k' | k' in regions
      ensures SameRegion(m, regions[k'], PushPage(m1, t, n, f, c), regions[k := regions[k].(source := t)][k'])
    {
      assert RegionOk(m.links, regions, k');
      NewObjectValues(m, t, l, regions[k'].source);
      PushValue(m1, t, n, f, c, regions[k'].source);
    }
  }

  // Case B on a copy-on-write region that has no shadow yet.
  lemma CopyToNewShadowKeeps(s: State, k: RegKey, vp: nat, f: Frame, t: ObjId, c: Page)
    requires Inv(s) && Covers(s.regions, k, PageKey(k.pid, vp)) && FreshFrame(s.store.pages, f)
    requires s.regions[k].cow && s.regions[k].source in s.store.links
    requires s.store.links[s.regions[k].source].kind != Shadow && t !in s.store.links && t != 0
    requires Value(s.store, s.regions[k].source, PageNr(s.regions[k], vp)) == Some(c)
    ensures
      var s' := MapEntry(CopyPage(s, k, PageNr(s.regions[k], vp), f, t, c), PageKey(k.pid, vp), f, true);
      Inv(s') && SameViews(s.store, s.regions, s'.store, s'.regions)
  {
    hide RefsOk, RegionsOk, PtOk, FilesOk, FramesDistinct, Backed;
    ShapeOf(s.store.links, s.regions, s.refs, k);
    var m, n := s.store, PageNr(s.regions[k], vp);
    var l := Link(Shadow, s.regions[k].source, 0, s.clock);
    CopyNewViews(m, s.regions, k, n, f, c, t, l);
    CopyNewStructure(s, k, t, l);
    CopyNewPtOk(m, s.regions, s.pt, k, vp, f, t, l);
    NewObjectFilesOk(m, s.vmobj, t, l);
    PushFilesOk(NewObject(m, t, l), s.vmobj, t, n, f, c);
  }

  lemma CopyNewStructure(s: State, k: RegKey, t: ObjId, l: Link)
    requires Inv(s) && k in s.regions && s.regions[k].cow && t !in s.store.links && t != 0
    requires l == Link(Shadow, s.regions[k].source, 0, s.clock)
    requires l.next in s.store.links && s.store.links[l.next].kind != Shadow
    ensures var links', regions' := s.store.links[t := l], s.regions[k := s.regions[k].(source := t)];
      && RefsOk(links', regions', s.refs[t := Refs(1, 0, 0)]) && RegionsOk(links', regions')
      && Aged(links', s.clock + 1)
  {
    hide PtOk, FilesOk, FramesDistinct, Backed;
    InsertShadowRefs(s.store.links, s.regions, s.refs, k, t, l);
    InsertShadowRegions(s.store.links, s.regions, k, t, l);
  }

  // ---------------------------------------------------------------- any fault

  // Whatever the fault handler does, regions show what they showed before.
  lemma FaultKeeps(s: State, k: RegKey, vp: nat, write: bool, f: Frame, t: ObjId)
    requires Inv(s) && Covers(s.regions, k, PageKey(k.pid, vp)) && RegionOk(s.store.links, s.regions, k)
    requires FreshFrame(s.store.pages, f) && t !in s.store.links && t != 0
    requires Fault(s, k, vp, write, f, t).Done?
    ensures var s' := Fault(s, k, vp, write, f, t).s; Inv(s') && SameViews(s.store, s.regions, s'.store, s'.regions)
  {
    hide RefsOk, RegionsOk, PtOk, FilesOk, FramesDistinct, Backed;
    ShapeOf(s.store.links, s.regions, s.refs, k);
    var m, r, n, e := s.store, s.regions[k], PageNr(s.regions[k], vp), PageKey(k.pid, vp);
    var found := Find(m.links, m.pages, r.source, n);
    if found.None? {
      PageInKeeps(s, k, vp, f);
    } else if write && r.cow {
      var c := Contents(m.mem, found.value);
      if m.links[r.source].kind == Shadow {
        CopyToShadowKeeps(s, k, vp, f, c);
      } else {
        CopyToNewShadowKeeps(s, k, vp, f, t, c);
      }
    } else {
      MapFoundKeeps(s, k, vp);
    }
  }

  lemma MapFoundKeeps(s: State, k: RegKey, vp: nat)
    requires Inv(s) && Covers(s.regions, k, PageKey(k.pid, vp)) && RegionOk(s.store.links, s.regions, k)
    requires Find(s.store.links, s.store.pages, s.regions[k].source, PageNr(s.regions[k], vp)).Some?
    ensures var r := s.regions[k];
      var g := Find(s.store.links, s.store.pages, r.source, PageNr(r, vp)).value;
      Inv(MapEntry(s, PageKey(k.pid, vp), g, r.writable && !r.cow))
    ensures SameViews(s.store, s.regions, s.store, s.regions)
  {
    hide RefsOk, RegionsOk, FilesOk, FramesDistinct, Backed;
    var m, r, n, e := s.store, s.regions[k], PageNr(s.regions[k], vp), PageKey(k.pid, vp);
    var g := Find(m.links, m.pages, r.source, n).value;
    ShapeOf(m.links, s.regions, s.refs, k);
    MapOk(m.links, m.pages, s.regions, s.pt, k, e, Pte(g, r.writable && !r.cow));
    SameObjectsSameViews(m, m, m.links, s.regions);
  }
}
