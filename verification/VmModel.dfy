/** State of the virtual memory system, its invariant, and its operations as functions on states.
    Addresses of regions are in pages; the machine in VmKernel works on bytes and the MCB array. */
module VmModel {
  import opened Basics
  import opened VmObjects

  datatype Refs = Refs(count: int, ref1: ObjId, ref2: ObjId)

  datatype Region = Region(first: nat, last: nat, readable: bool, writable: bool, cow: bool,
                           source: ObjId, srcPage: nat)
  datatype RegKey = RegKey(pid: nat, first: nat)
  datatype PageKey = PageKey(pid: nat, vp: nat)
  datatype Pte = Pte(frame: Frame, writable: bool)   // a present page-table entry
  datatype FilePage = FilePage(vnode: nat, nr: nat)

  type Regions = map<RegKey, Region>
  type PageTables = map<PageKey, Pte>

  // The objects and the pages they hold: all that lookup depends on.
  datatype Store = Store(links: Links, pages: Pages, mem: map<Frame, Page>, files: map<FilePage, Page>)

  datatype State = State(store: Store, refs: map<ObjId, Refs>, regions: Regions, pt: PageTables,
                         vmobj: map<nat, ObjId>, clock: nat)

  // ---------------------------------------------------------------- what a region shows

  predicate Covers(regions: Regions, k: RegKey, e: PageKey) {
    k in regions && k.pid == e.pid && regions[k].first <= e.vp <= regions[k].last
  }

  function PageNr(r: Region, vp: nat): nat
    requires r.first <= vp
  {
    vp - r.first + r.srcPage
  }

  // Contents of a page nobody has touched: zeroes, or the file. None if the file has no such full page.
  function Initial(files: map<FilePage, Page>, b: Link, n: nat): Option<Page> {
    if b.kind == File then
      if FilePage(b.vnode, n) in files then Some(files[FilePage(b.vnode, n)]) else None
    else Some(ZeroPage)
  }

  // Contents of a frame. Frames on page chains are always in mem (Backed).
  function Contents(mem: map<Frame, Page>, f: Frame): Page {
    if f in mem then mem[f] else ZeroPage
  }

  // Page n of the chain starting at o, as first-match lookup shows it.
  function Value(m: Store, o: ObjId, n: nat): Option<Page>
    requires Ranked(m.links) && o in m.links
  {
    match Find(m.links, m.pages, o, n)
    case Some(f) => Some(Contents(m.mem, f))
    case None => Initial(m.files, m.links[Bottom(m.links, o)], n)
  }

  // ---------------------------------------------------------------- the invariant

  predicate Backed(pages: Pages, mem: map<Frame, Page>) {
    forall o :: o in pages ==> Frames(pages[o]) <= mem.Keys
  }

  predicate StoreOk(m: Store) {
    Ranked(m.links) && m.pages.Keys <= m.links.Keys && FramesDistinct(m.pages) && Backed(m.pages, m.mem)
  }

  predicate Aged(links: Links, clock: nat) {
    forall o :: o in links ==> links[o].birth < clock
  }

  function RegRefs(regions: Regions, o: ObjId): set<RegKey> {
    set k | k in regions && regions[k].source == o
  }

  function ObjRefs(links: Links, o: ObjId): set<ObjId> {
    set x | x in links && links[x].next == o
  }

  // refcount = regions plus objects pointing here; a shadow under other objects has exactly its two
  // recorded referers.
  predicate RefShape(l: Link, fromRegions: set<RegKey>, fromObjects: set<ObjId>, c: Refs) {
    && c.count == |fromRegions| + |fromObjects|
    && (l.kind == Shadow <==> l.next != 0)
    && (l.kind == Shadow && fromRegions == {} ==> fromObjects == {c.ref1, c.ref2} && c.ref1 != c.ref2)
  }

  predicate RefOk(links: Links, regions: Regions, o: ObjId, c: Refs)
    requires o in links
  {
    RefShape(links[o], RegRefs(regions, o), ObjRefs(links, o), c)
  }

  predicate RefsOk(links: Links, regions: Regions, refs: map<ObjId, Refs>) {
    && refs.Keys == links.Keys
    && forall o {:trigger RefOk(links, regions, o, refs[o])} :: o in links ==> RefOk(links, regions, o, refs[o])
  }

  // Objects whose pages a region may write in place: its shadow, or writable memory that fork has not touched.
  predicate Private(l: Link, r: Region) {
    l.kind == Shadow || InPlace(r)
  }

  predicate RegionShape(k: RegKey, r: Region, l: Link, fromRegions: set<RegKey>, fromObjects: set<ObjId>) {
    && k.first == r.first <= r.last
    && (r.cow ==> r.writable)
    && (l.kind == Shadow ==> r.cow)
    && (InPlace(r) ==> l.kind == Anonymous)
    && (l.kind == Shadow ==> fromRegions == {k} && fromObjects == {})
  }

  predicate RegionOk(links: Links, regions: Regions, k: RegKey)
    requires k in regions
  {
    var r := regions[k];
    r.source in links && RegionShape(k, r, links[r.source], RegRefs(regions, r.source), ObjRefs(links, r.source))
  }

  predicate InPlace(r: Region) { r.writable && !r.cow }

  // The page numbers of the object that a region shows.
  predicate InPages(r: Region, n: int) { r.srcPage <= n <= r.srcPage + r.last - r.first }

  predicate PagesApart(r1: Region, r2: Region) {
    r1.srcPage + r1.last - r1.first < r2.srcPage || r2.srcPage + r2.last - r2.first < r1.srcPage
  }

  // Memory that region k writes in place is shown by no other region, except that parts of it may belong to other
  // regions of the process, where munmap has cut a region in two.
  predicate SoleUse(links: Links, regions: Regions, k: RegKey)
    requires k in regions
  {
    var r := regions[k];
    && ObjRefs(links, r.source) == {}
    && forall k' :: k' in regions && k' != k && regions[k'].source == r.source ==> SharesPart(k, r, k', regions[k'])
  }

  predicate SharesPart(k: RegKey, r: Region, k': RegKey, r': Region) {
    k'.pid == k.pid && InPlace(r') && PagesApart(r, r')
  }

  // While one process forks, this holds of the others only.
  predicate InPlaceBut(links: Links, regions: Regions, except: set<nat>) {
    forall k {:trigger SoleUse(links, regions, k)} :: k in regions && InPlace(regions[k]) && k.pid !in except ==>
      SoleUse(links, regions, k)
  }

  predicate InPlaceOk(links: Links, regions: Regions) { InPlaceBut(links, regions, {}) }

  predicate Apart(r1: Region, r2: Region) { r1.last < r2.first || r2.last < r1.first }

  predicate RegionsApart(regions: Regions) {
    forall k1, k2 :: k1 in regions && k2 in regions && k1.pid == k2.pid && k1 != k2 ==>
                       Apart(regions[k1], regions[k2])
  }

  predicate RegionsOk(links: Links, regions: Regions) {
    && RegionsApart(regions)
    && forall k {:trigger RegionOk(links, regions, k)} :: k in regions ==> RegionOk(links, regions, k)
  }

  // A page-table entry names the frame lookup gives. A writable one names a page of the region's own object.
  predicate EntryOk(links: Links, pages: Pages, r: Region, vp: nat, e: Pte) {
    && Ranked(links) && r.source in links && r.first <= vp
    && Find(links, pages, r.source, PageNr(r, vp)) == Some(e.frame)
    && (e.writable ==> r.writable && Private(links[r.source], r)
                       && FindIn(ChainOf(pages, r.source), PageNr(r, vp)) == Some(e.frame))
    && (r.writable && !r.cow ==> e.writable)
  }

  ghost predicate PtOk(links: Links, pages: Pages, regions: Regions, pt: PageTables) {
    && (forall e :: e in pt ==> exists k :: Covers(regions, k, e))
    && (forall e, k :: e in pt && Covers(regions, k, e) ==> EntryOk(links, pages, regions[k], e.vp, pt[e]))
  }

  predicate HoldsFile(b: Link, chain: seq<PageRef>, mem: map<Frame, Page>, files: map<FilePage, Page>) {
    forall p :: p in chain ==> Initial(files, b, p.nr) == Some(Contents(mem, p.frame))
  }

  // Pages of a file object hold the file; there is one object per vnode.
  predicate FilesOk(m: Store, vmobj: map<nat, ObjId>) {
    && (forall v :: v in vmobj ==> vmobj[v] in m.links && m.links[vmobj[v]].kind == File
                                   && m.links[vmobj[v]].vnode == v)
    && (forall o :: o in m.links && m.links[o].kind == File ==>
                      && m.links[o].vnode in vmobj && vmobj[m.links[o].vnode] == o
                      && HoldsFile(m.links[o], ChainOf(m.pages, o), m.mem, m.files))
  }

  ghost predicate Inv(s: State) {
    && StoreOk(s.store) && Aged(s.store.links, s.clock)
    && RefsOk(s.store.links, s.regions, s.refs)
    && RegionsOk(s.store.links, s.regions)
    && PtOk(s.store.links, s.store.pages, s.regions, s.pt)
    && FilesOk(s.store, s.vmobj)
  }

  // Every object but a file's has a user. Kept by whole operations, not by each of their steps.
  predicate Used(s: State) {
    UsedBut(s, {})
  }

  predicate UsedBut(s: State, except: set<ObjId>) {
    forall o :: o in s.store.links && o !in except && s.store.links[o].kind != File ==>
                  o in s.refs && s.refs[o].count >= 1
  }

  const Empty := State(Store(map[], map[], map[], map[]), map[], map[], map[], map[], 0)

  // ---------------------------------------------------------------- operations

  predicate FreshFrame(pages: Pages, f: Frame) {
    forall o :: o in pages ==> f !in Frames(pages[o])
  }

  // A new page n of object t, first on its chain.
  function PushPage(m: Store, t: ObjId, n: nat, f: Frame, c: Page): Store {
    m.(pages := Pushed(m.pages, t, PageRef(n, f)), mem := m.mem[f := c])
  }

  function NewObject(m: Store, o: ObjId, l: Link): Store {
    m.(links := m.links[o := l])
  }

  // vm_region_attach
  function AttachRegion(s: State, k: RegKey, r: Region): State
    requires r.source in s.refs
  {
    s.(regions := s.regions[k := r],
       refs := s.refs[r.source := s.refs[r.source].(count := s.refs[r.source].count + 1)])
  }

  // vm_object_create for a bottom object
  function CreateObject(s: State, o: ObjId, kind: Kind, vnode: nat): State {
    s.(store := NewObject(s.store, o, Link(kind, 0, vnode, s.clock)), refs := s.refs[o := Refs(0, 0, 0)],
       clock := s.clock + 1)
  }

  function AttachAnonymous(s: State, pid: nat, r: Region): State {
    AttachRegion(CreateObject(s, r.source, Anonymous, 0), RegKey(pid, r.first), r)
  }

  function AttachFile(s: State, pid: nat, r: Region, vnode: nat): State
    requires vnode in s.vmobj ==> r.source == s.vmobj[vnode] && r.source in s.refs
  {
    var s1 := if vnode in s.vmobj then s
              else CreateObject(s, r.source, File, vnode).(vmobj := s.vmobj[vnode := r.source]);
    AttachRegion(s1, RegKey(pid, r.first), r)
  }

  datatype FaultResult = Done(s: State) | Segv | PageinFailed | UnknownFault

  function MapEntry(s: State, e: PageKey, f: Frame, w: bool): State {
    s.(pt := s.pt[e := Pte(f, w)])
  }

  // Case A of vm_fault: no object of the chain has page n; the bottom object's pagein function supplies it.
  function PageIn(s: State, k: RegKey, vp: nat, f: Frame): FaultResult
    requires Ranked(s.store.links) && Covers(s.regions, k, PageKey(k.pid, vp))
    requires s.regions[k].source in s.store.links
  {
    var r := s.regions[k];
    var n := PageNr(r, vp);
    var b := Bottom(s.store.links, r.source);
    var c := Initial(s.store.files, s.store.links[b], n);
    if c.None? then PageinFailed
    else
      var target := if s.store.links[b].kind == Anonymous then r.source else b;
      Done(MapEntry(s.(store := PushPage(s.store, target, n, f, c.value)), PageKey(k.pid, vp), f,
                    r.writable && !r.cow))
  }

  // Case B of vm_fault: the copy goes into the region's shadow, made on demand with address t.
  function CopyPage(s: State, k: RegKey, n: nat, f: Frame, t: ObjId, c: Page): State
    requires k in s.regions && s.regions[k].source in s.store.links
  {
    var o := s.regions[k].source;
    if s.store.links[o].kind == Shadow then s.(store := PushPage(s.store, o, n, f, c))
    else s.(store := PushPage(NewObject(s.store, t, Link(Shadow, o, 0, s.clock)), t, n, f, c),
            refs := s.refs[t := Refs(1, 0, 0)],
            regions := s.regions[k := s.regions[k].(source := t)], clock := s.clock + 1)
  }

  // vm_fault for an address in region k. f and t are what malloc would return for a page and an object.
  function Fault(s: State, k: RegKey, vp: nat, write: bool, f: Frame, t: ObjId): FaultResult
    requires Ranked(s.store.links)
    requires Covers(s.regions, k, PageKey(k.pid, vp)) && s.regions[k].source in s.store.links
  {
    var r := s.regions[k];
    var n := PageNr(r, vp);
    var e := PageKey(k.pid, vp);
    var found := Find(s.store.links, s.store.pages, r.source, n);
    if !write && !r.readable then Segv
    else if write && !r.writable && !r.cow then Segv
    else if found.None? then PageIn(s, k, vp, f)
    else if write && r.cow then
      Done(MapEntry(CopyPage(s, k, n, f, t, Contents(s.store.mem, found.value)), e, f, r.writable))
    else if e !in s.pt then Done(MapEntry(s, e, found.value, r.writable && !r.cow))
    else UnknownFault
  }

  // pmap_markpages_cow on one process: entries in the range lose the write bit.
  function WriteProtected(pt: PageTables, pid: nat, first: nat, last: nat): PageTables {
    map e | e in pt :: if e.pid == pid && first <= e.vp <= last then pt[e].(writable := false) else pt[e]
  }

  // One round of vm_fork's loop.
  function ForkRegion(s: State, k: RegKey, child: nat, t1: ObjId, t2: ObjId): State
    requires k in s.regions && s.regions[k].source in s.store.links && s.regions[k].source in s.refs
  {
    var r := s.regions[k];
    var o := r.source;
    var c := s.refs[o];
    var ck := RegKey(child, r.first);
    if !r.writable then AttachRegion(s, ck, r)
    else
      var c' := if s.store.links[o].kind == Shadow then Refs(c.count + 1, t1, t2) else c.(count := c.count + 1);
      var l := Link(Shadow, o, 0, s.clock);
      s.(store := NewObject(NewObject(s.store, t1, l), t2, l),
         refs := s.refs[o := c'][t1 := Refs(1, 0, 0)][t2 := Refs(1, 0, 0)],
         regions := s.regions[k := r.(source := t1, cow := true)][ck := r.(source := t2, cow := true)],
         pt := WriteProtected(s.pt, k.pid, r.first, r.last),
         clock := s.clock + 1)
  }

  // vm_object_combine
  function Combine(s: State, sub: ObjId, top: ObjId): State
    requires sub in s.store.links && top in s.store.links && s.store.links[sub].next in s.refs
  {
    var y := s.store.links[sub].next;
    var c := s.refs[y];
    s.(store := s.store.(links := CombinedLinks(s.store.links, sub, top),
                         pages := CombinedPages(s.store.pages, sub, top)),
       refs := s.refs[y := c.(ref1 := if c.ref1 == sub then top else c.ref1,
                              ref2 := if c.ref2 == sub then top else c.ref2)] - {sub})
  }

  function OtherRef(c: Refs, o: ObjId): ObjId { if c.ref1 == o then c.ref2 else c.ref1 }

  function RemoveObject(s: State, o: ObjId): State {
    s.(store := s.store.(links := s.store.links - {o}, pages := s.store.pages - {o}), refs := s.refs - {o})
  }

  // vm_object_free. None stands for what must not happen: vm_object_combine is given an object that has been freed, or
  // one that makes it panic.
  function Release(s: State, o: ObjId): Option<State>
    requires Ranked(s.store.links) && o in s.store.links && s.refs.Keys == s.store.links.Keys
    decreases s.store.links[o].birth
  {
    var next := s.store.links[o].next;
    var c := s.refs[o].count - 1;
    var s0 := s.(refs := s.refs[o := s.refs[o].(count := c)]);
    if c > 0 then Some(s0)
    else
      var s1 :=
        if next == 0 then Some(s0)
        else if s.refs[next].count == 2 && s.store.links[next].kind == Shadow then
          var top := OtherRef(s.refs[next], o);
          if && top in s.store.links && s.store.links[top].next == next
             && s.store.links[top].kind == Shadow && s.store.links[next].next != 0
          then Some(Combine(s0, next, top)) else None
        else Release(s0, next);
      if s1.None? then None
      else if s.store.links[o].kind == File then s1
      else Some(RemoveObject(s1.value, o))
  }

  // Entries of one process in a range of pages, cleared before the region goes (pmap_unmappages).
  function Unmapped(pt: PageTables, pid: nat, first: nat, last: nat): PageTables {
    map e | e in pt && !(e.pid == pid && first <= e.vp <= last) :: pt[e]
  }

  // vm_region_detach of a whole region whose pages are no longer mapped
  function Detach(s: State, k: RegKey): Option<State>
    requires Ranked(s.store.links) && s.refs.Keys == s.store.links.Keys
    requires k in s.regions && s.regions[k].source in s.store.links
  {
    var r := s.regions[k];
    Release(s.(regions := s.regions - {k}, pt := Unmapped(s.pt, k.pid, r.first, r.last)), r.source)
  }

  // sys_munmap takes pages lo..hi out of a region. What is left is a lower part, a higher part, or both.
  predicate CanCut(regions: Regions, k: RegKey, lo: nat, hi: nat) {
    k in regions && regions[k].first <= lo <= hi <= regions[k].last && (lo > regions[k].first || hi < regions[k].last)
  }

  function LowPart(r: Region, lo: nat): Region
    requires lo > 0
  {
    r.(last := lo - 1)
  }

  function HighPart(r: Region, hi: nat): Region
    requires r.first <= hi
  {
    r.(first := hi + 1, srcPage := PageNr(r, hi + 1))
  }

  function CutRegions(regions: Regions, k: RegKey, lo: nat, hi: nat): Regions
    requires CanCut(regions, k, lo, hi)
  {
    var r := regions[k];
    var low := if lo > r.first then regions[k := LowPart(r, lo)] else regions - {k};
    if hi < r.last then low[RegKey(k.pid, hi + 1) := HighPart(r, hi)] else low
  }

  predicate InTwo(r: Region, lo: nat, hi: nat) { r.first < lo && hi < r.last }

  function CutRegion(s: State, k: RegKey, lo: nat, hi: nat): State
    requires CanCut(s.regions, k, lo, hi) && s.regions[k].source in s.refs
  {
    var r := s.regions[k];
    var c := s.refs[r.source];
    s.(regions := CutRegions(s.regions, k, lo, hi), pt := Unmapped(s.pt, k.pid, lo, hi),
       refs := if InTwo(r, lo, hi) then s.refs[r.source := c.(count := c.count + 1)] else s.refs)
  }

  // A store through a page-table entry.
  function StoreByte(s: State, f: Frame, off: nat, b: Byte): State
    requires off < PAGESIZE
  {
    s.(store := s.store.(mem := s.store.mem[f := Contents(s.store.mem, f)[off := b]]))
  }
}
