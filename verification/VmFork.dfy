/** Attaching regions and vm_fork: invariant kept, the child's regions show what the parent's do. */
module VmFork {
  import opened Basics
  import opened VmObjects
  import opened VmModel
  import opened VmInvariants

  // ---------------------------------------------------------------- attaching a region

  lemma CreateKeeps(s: State, o: ObjId, kind: Kind, vnode: nat, s': State)
    requires Inv(s) && o !in s.store.links && o != 0 && kind != Shadow
    requires kind == File ==> vnode !in s.vmobj
    requires s' == CreateObject(s, o, kind, vnode)
                     .(vmobj := if kind == File then s.vmobj[vnode := o] else s.vmobj)
    ensures Inv(s') && SameViews(s.store, s.regions, s'.store, s'.regions)
    ensures RegRefs(s'.regions, o) == {} && ObjRefs(s'.store.links, o) == {}
  {
    hide RefsOk, RegionsOk, PtOk, FilesOk, FramesDistinct, Backed;
    var m, l := s.store, Link(kind, 0, vnode, s.clock);
    FreshHasNoRefs(m.links, s.regions, o);
    CreateStoreOk(m, o, l);
    CreateRefs(m.links, s.regions, s.refs, o, l);
    CreateRegionsOk(m.links, s.regions, o, l);
    CreatePtOk(m, s.regions, s.pt, o, l);
    CreateFilesOk(m, s.vmobj, o, l);
    CreateViews(m, s.regions, o, l);
    AddLinkRefs(m.links, o, l, o);
  }

  lemma CreateStoreOk(m: Store, o: ObjId, l: Link)
    requires StoreOk(m) && o !in m.links && o != 0 && l.next == 0
    ensures StoreOk(NewObject(m, o, l))
  {}

  lemma CreateViews(m: Store, regions: Regions, o: ObjId, l: Link)
    requires StoreOk(m) && RegionsOk(m.links, regions) && o !in m.links && o != 0 && l.next == 0
    ensures SameViews(m, regions, NewObject(m, o, l), regions)
  {
    forall k | k in regions ensures SameRegion(m, regions[k], NewObject(m, o, l), regions[k]) {
      assert RegionOk(m.links, regions, k);
      NewObjectValues(m, o, l, regions[k].source);
    }
  }

  lemma CreateRefs(links: Links, regions: Regions, refs: map<ObjId, Refs>, o: ObjId, l: Link)
    requires RefsOk(links, regions, refs) && o !in links && o != 0 && l.kind != Shadow && l.next == 0 && 0 !in links
    requires RegRefs(regions, o) == {} && ObjRefs(links, o) == {}
    ensures RefsOk(links[o := l], regions, refs[o := Refs(0, 0, 0)])
  {
    var links', refs' := links[o := l], refs[o := Refs(0, 0, 0)];
    forall x | x in links' ensures RefOk(links', regions, x, refs'[x]) {
      CreateRef(links, regions, o, l, x, refs'[x]);
    }
  }

  lemma CreateRef(links: Links, regions: Regions, o: ObjId, l: Link, x: ObjId, c: Refs)
    requires o !in links && x != 0 && l.kind != Shadow && l.next == 0
    requires if x == o then RegRefs(regions, o) == {} && ObjRefs(links, o) == {} && c == Refs(0, 0, 0)
             else x in links && RefOk(links, regions, x, c)
    ensures RefOk(links[o := l], regions, x, c)
  {
    AddLinkRefs(links, o, l, x);
  }

  lemma CreateRegionsOk(links: Links, regions: Regions, o: ObjId, l: Link)
    requires RegionsOk(links, regions) && o !in links && 0 !in links && l.next == 0
    ensures RegionsOk(links[o := l], regions)
  {
    forall k | k in regions ensures RegionOk(links[o := l], regions, k) {
      assert RegionOk(links, regions, k);
      AddLinkRefs(links, o, l, regions[k].source);
    }
  }

  lemma CreatePtOk(m: Store, regions: Regions, pt: PageTables, o: ObjId, l: Link)
    requires StoreOk(m) && PtOk(m.links, m.pages, regions, pt) && o !in m.links && o != 0 && l.next == 0
    ensures PtOk(m.links[o := l], m.pages, regions, pt)
  {
    forall e, k | e in pt && Covers(regions, k, e) ensures EntryOk(m.links[o := l], m.pages, regions[k], e.vp, pt[e]) {
      NewObjectEntry(m, o, l, regions[k], e.vp, pt[e]);
    }
  }

  lemma CreateFilesOk(m: Store, vmobj: map<nat, ObjId>, o: ObjId, l: Link)
    requires StoreOk(m) && FilesOk(m, vmobj) && o !in m.links && (l.kind == File ==> l.vnode !in vmobj)
    ensures FilesOk(NewObject(m, o, l), if l.kind == File then vmobj[l.vnode := o] else vmobj)
  {
    assert ChainOf(m.pages, o) == [];
    forall x | x in m.links && m.links[x].kind == File
      ensures HoldsFile(m.links[x], ChainOf(m.pages, x), m.mem, m.files) {}
  }

  // What vm_region_attach may be given: free pages, and an object that is not a shadow.
  predicate CanAttach(links: Links, regions: Regions, k: RegKey, r: Region) {
    && k !in regions && r.source in links && links[r.source].kind != Shadow
    && RegionShape(k, r, links[r.source], RegRefs(regions, r.source) + {k}, ObjRefs(links, r.source))
    && (forall k' :: k' in regions && k'.pid == k.pid ==> Apart(regions[k'], r))
  }

  lemma AttachKeeps(s: State, k: RegKey, r: Region)
    requires Inv(s) && CanAttach(s.store.links, s.regions, k, r)
    ensures Inv(AttachRegion(s, k, r))
  {
    hide RefsOk, RegionsOk, PtOk, FilesOk, StoreOk, Aged;
    AttachRefs(s.store.links, s.regions, s.refs, k, r);
    AttachRegionsOk(s.store.links, s.regions, k, r);
    AttachPtOk(s.store.links, s.store.pages, s.regions, s.pt, k, r);
  }

  lemma ApartAdd(regions: Regions, k: RegKey, r: Region)
    requires RegionsApart(regions) && k !in regions
    requires forall k' :: k' in regions && k'.pid == k.pid ==> Apart(regions[k'], r)
    ensures RegionsApart(regions[k := r])
  {
    var regions' := regions[k := r];
    forall k1, k2 | k1 in regions' && k2 in regions' && k1.pid == k2.pid && k1 != k2
      ensures Apart(regions'[k1], regions'[k2])
    {
      assert k1 == k || k2 == k || Apart(regions[k1], regions[k2]);
    }
  }

  lemma AttachRefs(links: Links, regions: Regions, refs: map<ObjId, Refs>, k: RegKey, r: Region)
    requires RefsOk(links, regions, refs) && k !in regions && r.source in links && links[r.source].kind != Shadow
    ensures RefsOk(links, regions[k := r], refs[r.source := refs[r.source].(count := refs[r.source].count + 1)])
  {
    var refs' := refs[r.source := refs[r.source].(count := refs[r.source].count + 1)];
    forall x | x in links ensures RefOk(links, regions[k := r], x, refs'[x]) {
      AttachRef(links, regions, k, r, x, refs[x]);
    }
  }

  lemma AttachRegionsOk(links: Links, regions: Regions, k: RegKey, r: Region)
    requires RegionsOk(links, regions) && k !in regions
    requires (forall k' :: k' in regions && k'.pid == k.pid ==> Apart(regions[k'], r)) && r.source in links
    requires RegionShape(k, r, links[r.source], RegRefs(regions, r.source) + {k}, ObjRefs(links, r.source))
    requires links[r.source].kind != Shadow
    ensures RegionsOk(links, regions[k := r])
  {
    var regions' := regions[k := r];
    ApartAdd(regions, k, r);
    forall k' | k' in regions' ensures RegionOk(links, regions', k') {
      RedirectRefs(regions, k, r, regions'[k'].source);
      assert RegRefs(regions, regions'[k'].source) - {k} == RegRefs(regions, regions'[k'].source);
      if k' != k { assert RegionOk(links, regions, k'); }
    }
  }

  lemma AttachRef(links: Links, regions: Regions, k: RegKey, r: Region, x: ObjId, c: Refs)
    requires x in links && RefOk(links, regions, x, c) && k !in regions && (r.source == x ==> links[x].kind != Shadow)
    ensures RefOk(links, regions[k := r], x, if x == r.source then c.(count := c.count + 1) else c)
  {
    RedirectRefs(regions, k, r, x);
    assert RegRefs(regions, x) - {k} == RegRefs(regions, x);
  }

  lemma AttachPtOk(links: Links, pages: Pages, regions: Regions, pt: PageTables, k: RegKey, r: Region)
    requires PtOk(links, pages, regions, pt) && k !in regions
    requires forall k' :: k' in regions && k'.pid == k.pid ==> Apart(regions[k'], r)
    ensures PtOk(links, pages, regions[k := r], pt)
  {
    var regions' := regions[k := r];
    forall e | e in pt ensures exists k' :: Covers(regions', k', e) {
      var k' :| Covers(regions, k', e);
      assert Covers(regions', k', e);
    }
    forall e, k' | e in pt && Covers(regions', k', e) ensures EntryOk(links, pages, regions'[k'], e.vp, pt[e]) {
      var k0 :| Covers(regions, k0, e);
      assert k0.pid == k.pid ==> Apart(regions[k0], r);
      assert Covers(regions, k', e);
    }
  }

  // ---------------------------------------------------------------- fork, one region

  // The two shadows over o, for the parent's region k and the child's region ck.
  lemma ForkSets(links: Links, regions: Regions, k: RegKey, ck: RegKey, r1: Region, r2: Region, l: Link, x: ObjId)
    requires k in regions && ck !in regions && r1.source !in links && r2.source !in links && r1.source != r2.source
    ensures RegRefs(regions[k := r1][ck := r2], x) ==
            RegRefs(regions, x) - {k} + (if x == r1.source then {k} else {}) + (if x == r2.source then {ck} else {})
    ensures ObjRefs(links[r1.source := l][r2.source := l], x) ==
            ObjRefs(links, x) + (if x == l.next then {r1.source, r2.source} else {})
    ensures r1.source !in ObjRefs(links, x) && r2.source !in ObjRefs(links, x)
    ensures ck !in RegRefs(regions, x) && (k in RegRefs(regions, x) <==> x == regions[k].source)
  {
    RedirectRefs(regions, k, r1, x);
    RedirectRefs(regions[k := r1], ck, r2, x);
    AddLinkRefs(links, r1.source, l, x);
    AddLinkRefs(links[r1.source := l], r2.source, l, x);
  }

  lemma ForkRef(links: Links, regions: Regions, k: RegKey, ck: RegKey, r1: Region, r2: Region, l: Link, x: ObjId,
                c: Refs, c': Refs)
    requires k in regions && ck !in regions && r1.source !in links && r2.source !in links && r1.source != r2.source
    requires k != ck && l.kind == Shadow && l.next == regions[k].source && l.next in links && l.next != 0
    requires if x == r1.source || x == r2.source
             then RegRefs(regions, x) == {} && ObjRefs(links, x) == {} && c' == Refs(1, 0, 0)
             else x in links && RefOk(links, regions, x, c)
    requires x in links && x != l.next ==> c' == c
    requires x == l.next && links[x].kind == Shadow ==>
               c' == Refs(c.count + 1, r1.source, r2.source) && RegRefs(regions, x) == {k} && ObjRefs(links, x) == {}
    requires x == l.next && links[x].kind != Shadow ==> c' == c.(count := c.count + 1)
    ensures RefOk(links[r1.source := l][r2.source := l], regions[k := r1][ck := r2], x, c')
  {
    ForkSets(links, regions, k, ck, r1, r2, l, x);
    if x != l.next { assert RegRefs(regions, x) - {k} == RegRefs(regions, x); }
  }

  // What vm_fork may do to region k of the parent: ck is a free place in the child, t1 and t2 new addresses.
  predicate CanFork(links: Links, regions: Regions, k: RegKey, child: nat, t1: ObjId, t2: ObjId) {
    && k in regions && k.pid != child && RegKey(child, k.first) !in regions
    && (forall k' :: k' in regions && k'.pid == child ==> Apart(regions[k'], regions[k]))
    && t1 !in links && t2 !in links && t1 != 0 && t2 != 0 && t1 != t2
  }

  lemma ForkRefs(links: Links, regions: Regions, refs: map<ObjId, Refs>, k: RegKey, ck: RegKey,
                 r1: Region, r2: Region, l: Link, c': Refs)
    requires RefsOk(links, regions, refs) && RegionsOk(links, regions) && Ranked(links)
    requires k in regions && ck !in regions && r1.source !in links && r2.source !in links && r1.source != r2.source
    requires r1.source != 0 && r2.source != 0
    requires l.kind == Shadow && l.next == regions[k].source && l.next in links
    requires
      var c := refs[l.next];
      c' == if links[l.next].kind == Shadow then Refs(c.count + 1, r1.source, r2.source) else c.(count := c.count + 1)
    ensures RefsOk(links[r1.source := l][r2.source := l], regions[k := r1][ck := r2],
                   refs[l.next := c'][r1.source := Refs(1, 0, 0)][r2.source := Refs(1, 0, 0)])
  {
    hide RegionsOk;
    var links', regions' := links[r1.source := l][r2.source := l], regions[k := r1][ck := r2];
    var refs' := refs[l.next := c'][r1.source := Refs(1, 0, 0)][r2.source := Refs(1, 0, 0)];
    ShapeOf(links, regions, refs, k);
    FreshHasNoRefs(links, regions, r1.source);
    FreshHasNoRefs(links, regions, r2.source);
    forall x | x in links' ensures RefOk(links', regions', x, refs'[x]) {
      ForkRef(links, regions, k, ck, r1, r2, l, x, if x in links then refs[x] else refs'[x], refs'[x]);
    }
  }

  lemma ForkRegionsOk(links: Links, regions: Regions, k: RegKey, child: nat, t1: ObjId, t2: ObjId, l: Link)
    requires RegionsOk(links, regions) && Ranked(links) && CanFork(links, regions, k, child, t1, t2)
    requires regions[k].writable && l.kind == Shadow && l.next == regions[k].source
    ensures
      var r := regions[k];
      RegionsOk(links[t1 := l][t2 := l],
                regions[k := r.(source := t1, cow := true)][RegKey(child, r.first) := r.(source := t2, cow := true)])
  {
    var ck, r1, r2 := RegKey(child, k.first), regions[k].(source := t1, cow := true),
      regions[k].(source := t2, cow := true);
    var links', regions1 := links[t1 := l][t2 := l], regions[k := r1];
    var regions' := regions1[ck := r2];
    assert RegionOk(links, regions, k);
    forall k1, k2 | k1 in regions1 && k2 in regions1 && k1.pid == k2.pid && k1 != k2
      ensures Apart(regions1[k1], regions1[k2])
    {
      assert Apart(regions[k1], regions[k2]);
    }
    ApartAdd(regions1, ck, r2);
    FreshHasNoRefs(links, regions, t1);
    FreshHasNoRefs(links, regions, t2);
    forall k' | k' in regions' ensures RegionOk(links', regions', k') {
      ForkRegionOk(links, regions, k, ck, r1, r2, l, k');
    }
  }

  lemma ForkRegionOk(links: Links, regions: Regions, k: RegKey, ck: RegKey, r1: Region, r2: Region, l: Link, k': RegKey)
    requires k in regions && ck !in regions && r1.source !in links && r2.source !in links && r1.source != r2.source
    requires k != ck && l.kind == Shadow && l.next == regions[k].source && l.next in links
    requires RegionOk(links, regions, k) && regions[k].writable
    requires r1 == regions[k].(source := r1.source, cow := true) && r2 == regions[k].(source := r2.source, cow := true)
    requires ck.first == k.first
    requires RegRefs(regions, r1.source) == {} && ObjRefs(links, r1.source) == {}
    requires RegRefs(regions, r2.source) == {} && ObjRefs(links, r2.source) == {}
    requires k' != k && k' != ck ==> k' in regions && RegionOk(links, regions, k')
    ensures RegionOk(links[r1.source := l][r2.source := l], regions[k := r1][ck := r2], k')
  {
    var x := regions[k := r1][ck := r2][k'].source;
    ForkSets(links, regions, k, ck, r1, r2, l, x);
    if k' != k && k' != ck { ForkSets(links, regions, k, ck, r1, r2, l, l.next); }
  }

  lemma ForkPtOk(m: Store, regions: Regions, pt: PageTables, k: RegKey, child: nat, t1: ObjId, t2: ObjId, l: Link)
    requires StoreOk(m) && RegionsOk(m.links, regions) && PtOk(m.links, m.pages, regions, pt)
    requires CanFork(m.links, regions, k, child, t1, t2) && regions[k].writable
    requires forall e :: e in pt ==> e.pid != child
    requires l.kind == Shadow && l.next == regions[k].source && l.next in m.links && m.links[l.next].birth < l.birth
    ensures
      var r := regions[k];
      PtOk(m.links[t1 := l][t2 := l], m.pages,
           regions[k := r.(source := t1, cow := true)][RegKey(child, r.first) := r.(source := t2, cow := true)],
           WriteProtected(pt, k.pid, r.first, r.last))
  {
    hide FramesDistinct, Backed, Ranked, EntryOk, StoreOk, RegionShape;
    var r, ck := regions[k], RegKey(child, regions[k].first);
    var regions' := regions[k := r.(source := t1, cow := true)][ck := r.(source := t2, cow := true)];
    var links', pt' := m.links[t1 := l][t2 := l], WriteProtected(pt, k.pid, r.first, r.last);
    assert RegionOk(m.links, regions, k);
    forall e | e in pt' ensures exists k' :: Covers(regions', k', e) {
      var k' :| Covers(regions, k', e);
      assert Covers(regions', k', e);
    }
    forall e, k' | e in pt' && Covers(regions', k', e) ensures EntryOk(links', m.pages, regions'[k'], e.vp, pt'[e]) {
      assert k' != ck && Covers(regions, k', e);
      ProtectedEntry(regions, pt, k, k', e);
      ForkEntry(m, regions[k'], k' == k, t1, t2, l, e.vp, pt[e]);
    }
  }

  // The range protected for region k holds exactly region k's entries.
  lemma ProtectedEntry(regions: Regions, pt: PageTables, k: RegKey, k': RegKey, e: PageKey)
    requires RegionsApart(regions) && k in regions && e in pt && Covers(regions, k', e)
    ensures WriteProtected(pt, k.pid, regions[k].first, regions[k].last)[e] ==
            if k' == k then pt[e].(writable := false) else pt[e]
  {
    if Covers(regions, k, e) { CoverUnique(regions, k, k', e); }
  }

  lemma ForkEntry(m: Store, r: Region, own: bool, t1: ObjId, t2: ObjId, l: Link, vp: nat, e: Pte)
    requires StoreOk(m) && EntryOk(m.links, m.pages, r, vp, e)
    requires t1 !in m.links && t2 !in m.links && t1 != 0 && t2 != 0 && t1 != t2
    requires l.kind == Shadow && l.next in m.links && m.links[l.next].birth < l.birth && (own ==> l.next == r.source)
    ensures EntryOk(m.links[t1 := l][t2 := l], m.pages, if own then r.(source := t1, cow := true) else r, vp,
                    if own then e.(writable := false) else e)
  {
    var m1 := NewObject(m, t1, l);
    NewObjectValues(m, t1, l, l.next);
    if own {
      ShadowEntry(m, t1, l, r, vp, e);
      NewObjectEntry(m1, t2, l, r.(source := t1, cow := true), vp, e.(writable := false));
    } else {
      NewObjectEntry(m, t1, l, r, vp, e);
      NewObjectEntry(m1, t2, l, r, vp, e);
    }
  }

  // After a fork of region k: every region shows what it did, and the child's new region shows the same.
  ghost predicate ForkedViews(s: State, k: RegKey, child: nat, s': State) {
    && k in s.regions && s'.regions.Keys == s.regions.Keys + {RegKey(child, k.first)}
    && (forall k' :: k' in s.regions && k' != RegKey(child, k.first) ==>
                       SameRegion(s.store, s.regions[k'], s'.store, s'.regions[k']))
    && SameRegion(s.store, s.regions[k], s'.store, s'.regions[RegKey(child, k.first)])
  }

  lemma ForkValues(m: Store, t1: ObjId, t2: ObjId, l: Link, o: ObjId)
    requires StoreOk(m) && o in m.links && l.next in m.links && m.links[l.next].birth < l.birth
    requires t1 !in m.links && t2 !in m.links && t1 != 0 && t2 != 0 && t1 != t2
    ensures var m' := NewObject(NewObject(m, t1, l), t2, l);
      StoreOk(m') && SameValues(m, o, m', o) && SameValues(m, l.next, m', t1) && SameValues(m, l.next, m', t2)
  {
    var m1 := NewObject(m, t1, l);
    NewObjectValues(m, t1, l, o);
    NewObjectValues(m, t1, l, l.next);
    NewShadowValues(m, t1, l);
    NewObjectValues(m1, t2, l, o);
    NewObjectValues(m1, t2, l, t1);
    NewShadowValues(m1, t2, l);
  }

  lemma ForkWritableViews(s: State, k: RegKey, child: nat, t1: ObjId, t2: ObjId)
    requires StoreOk(s.store) && Aged(s.store.links, s.clock) && RegionsOk(s.store.links, s.regions)
    requires CanFork(s.store.links, s.regions, k, child, t1, t2) && s.regions[k].writable
    requires s.regions[k].source in s.refs
    requires RegionOk(s.store.links, s.regions, k)
    ensures ForkedViews(s, k, child, ForkRegion(s, k, child, t1, t2))
  {
    var s', l := ForkRegion(s, k, child, t1, t2), Link(Shadow, s.regions[k].source, 0, s.clock);
    forall k' | k' in s.regions ensures SameRegion(s.store, s.regions[k'], s'.store, s'.regions[k']) {
      assert RegionOk(s.store.links, s.regions, k');
      ForkValues(s.store, t1, t2, l, s.regions[k'].source);
    }
    ForkValues(s.store, t1, t2, l, l.next);
  }

  lemma ForkWritableKeeps(s: State, k: RegKey, child: nat, t1: ObjId, t2: ObjId)
    requires Inv(s) && CanFork(s.store.links, s.regions, k, child, t1, t2) && s.regions[k].writable
    requires forall e :: e in s.pt ==> e.pid != child
    requires s.regions[k].source in s.store.links && s.refs.Keys == s.store.links.Keys
    ensures var s' := ForkRegion(s, k, child, t1, t2); Inv(s') && ForkedViews(s, k, child, s')
  {
    hide RefsOk, RegionsOk, PtOk, FilesOk, FramesDistinct, Backed, SameRegion;
    ShapeOf(s.store.links, s.regions, s.refs, k);
    var m, r := s.store, s.regions[k];
    var l, ck := Link(Shadow, r.source, 0, s.clock), RegKey(child, r.first);
    ForkRefs(m.links, s.regions, s.refs, k, ck, r.(source := t1, cow := true), r.(source := t2, cow := true), l,
             ForkRegion(s, k, child, t1, t2).refs[r.source]);
    ForkRegionsOk(m.links, s.regions, k, child, t1, t2, l);
    ForkPtOk(m, s.regions, s.pt, k, child, t1, t2, l);
    ForkValues(m, t1, t2, l, r.source);
    NewObjectFilesOk(m, s.vmobj, t1, l);
    NewObjectFilesOk(NewObject(m, t1, l), s.vmobj, t2, l);
    ForkWritableViews(s, k, child, t1, t2);
  }

  lemma ForkReadOnlyKeeps(s: State, k: RegKey, child: nat)
    requires Inv(s) && k in s.regions && k.pid != child && RegKey(child, k.first) !in s.regions
    requires forall k' :: k' in s.regions && k'.pid == child ==> Apart(s.regions[k'], s.regions[k])
    requires !s.regions[k].writable && s.regions[k].source in s.refs
    ensures var s' := AttachRegion(s, RegKey(child, k.first), s.regions[k]);
      Inv(s') && ForkedViews(s, k, child, s')
  {
    hide RefsOk, RegionsOk, PtOk, FilesOk, FramesDistinct, Backed;
    var r, ck := s.regions[k], RegKey(child, k.first);
    ShapeOf(s.store.links, s.regions, s.refs, k);
    AttachKeeps(s, ck, r);
    forall k' | k' in s.regions ensures s.regions[k'].source in s.store.links {
      ShapeOf(s.store.links, s.regions, s.refs, k');
    }
  }

  lemma ForkRegionKeeps(s: State, k: RegKey, child: nat, t1: ObjId, t2: ObjId)
    requires Inv(s) && CanFork(s.store.links, s.regions, k, child, t1, t2)
    requires forall e :: e in s.pt ==> e.pid != child
    requires s.regions[k].source in s.store.links && s.refs.Keys == s.store.links.Keys
    ensures var s' := ForkRegion(s, k, child, t1, t2); Inv(s') && ForkedViews(s, k, child, s')
  {
    hide RefsOk, RegionsOk, PtOk, FilesOk, FramesDistinct, Backed, ForkedViews;
    ShapeOf(s.store.links, s.regions, s.refs, k);
    if s.regions[k].writable {
      ForkWritableKeeps(s, k, child, t1, t2);
    } else {
      ForkReadOnlyKeeps(s, k, child);
    }
  }
}
