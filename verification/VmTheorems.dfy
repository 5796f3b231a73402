/** Main results about the virtual memory system, over every run. */
module VmTheorems {
  import opened Basics
  import opened VmObjects
  import opened VmModel
  import opened VmInvariants
  import opened VmFork
  import opened VmDetach
  import opened VmRefinement
  import opened VmRuns
  import opened VmCut
  import opened VmInPlace

  ghost predicate Good(s: State, a: Memory) {
    Inv(s) && InPlaceOk(s.store.links, s.regions) && Used(s) && Refines(s.store, s.regions, a)
  }

  // What the definition of a step needs.
  predicate Stepable(s: State) {
    && Placed(s.store, s.regions) && s.refs.Keys == s.store.links.Keys
    && forall v :: v in s.vmobj ==> s.vmobj[v] in s.refs
  }

  // The guard Stepable never stops a run: an event is possible whenever it is enabled.
  lemma GoodIsStepable(s: State, a: Memory)
    requires Good(s, a)
    ensures Stepable(s)
  {
    InvPlaced(s);
  }

  // ---------------------------------------------------------------- mapping

  // An object that holds nothing, or a file object, shows its initial contents.
  lemma UntouchedValue(m: Store, o: ObjId, n: nat)
    requires Ranked(m.links) && o in m.links && m.links[o].next == 0
    requires ChainOf(m.pages, o) == []
             || (m.links[o].kind == File && HoldsFile(m.links[o], ChainOf(m.pages, o), m.mem, m.files))
    ensures Value(m, o, n) == Initial(m.files, m.links[o], n)
  {
    if FindIn(ChainOf(m.pages, o), n).Some? { FindInWitness(ChainOf(m.pages, o), n); }
  }

  lemma MappedShows(m: Store, pid: nat, r: Region, kind: Kind, vnode: nat)
    requires Ranked(m.links) && r.source in m.links && m.links[r.source].next == 0
    requires m.links[r.source].kind == kind && (kind == File ==> m.links[r.source].vnode == vnode)
    requires ChainOf(m.pages, r.source) == []
             || (kind == File && HoldsFile(m.links[r.source], ChainOf(m.pages, r.source), m.mem, m.files))
    ensures ShowsCells(m, RegKey(pid, r.first), r, MappedCells(m.files, pid, r, kind, vnode))
  {
    var cells := MappedCells(m.files, pid, r, kind, vnode);
    forall e ensures e in cells <==> e.pid == pid && r.first <= e.vp <= r.last
             ensures e in cells ==> cells[e] == CellOf(m, r, e.vp)
    {
      assert e.pid == pid ==> e == PageKey(pid, e.vp);
      if e in cells { UntouchedValue(m, r.source, PageNr(r, e.vp)); }
    }
  }

  lemma AttachRefines(s: State, a: Memory, pid: nat, r: Region, cells: Memory)
    requires Inv(s) && InPlaceOk(s.store.links, s.regions) && Refines(s.store, s.regions, a) && UsedBut(s, {r.source})
    requires forall k' :: k' in s.regions && s.regions[k'].source == r.source ==> !InPlace(s.regions[k']) && !InPlace(r)
    requires InPlace(r) ==> ObjRefs(s.store.links, r.source) == {}
    requires CanAttach(s.store.links, s.regions, RegKey(pid, r.first), r)
    requires r.source in s.refs && s.refs[r.source].count >= 0
    requires ShowsCells(s.store, RegKey(pid, r.first), r, cells)
    ensures Good(AttachRegion(s, RegKey(pid, r.first), r), a + cells)
  {
    hide Inv, Refines, ShowsCells, InPlaceBut;
    AttachKeeps(s, RegKey(pid, r.first), r);
    AddRegion(s.store.links, s.regions, {}, RegKey(pid, r.first), r);
    AddRegionRefines(s.store, s.regions, a, RegKey(pid, r.first), r, cells);
  }

  lemma FreeKey(links: Links, regions: Regions, pid: nat, r: Region)
    requires RegionsOk(links, regions) && FreePlace(regions, pid, r)
    ensures RegKey(pid, r.first) !in regions
  {
    if RegKey(pid, r.first) in regions { IsRegionOk(links, regions, RegKey(pid, r.first)); }
  }

  lemma CreatedInPlace(s: State, o: ObjId, kind: Kind, vnode: nat)
    requires Inv(s) && InPlaceOk(s.store.links, s.regions) && o !in s.store.links && o != 0
    ensures var s1 := CreateObject(s, o, kind, vnode);
      InPlaceOk(s1.store.links, s1.regions) && ObjRefs(s1.store.links, o) == {}
  {
    hide RefsOk, RegionsOk, PtOk, FilesOk, InPlaceBut;
    AddBottom(s.store.links, s.regions, {}, o, Link(kind, 0, vnode, s.clock));
    FreshHasNoRefs(s.store.links, s.regions, o);
    AddLinkRefs(s.store.links, o, Link(kind, 0, vnode, s.clock), o);
  }

  lemma MapAnonymousStep(s: State, a: Memory, pid: nat, r: Region)
    requires Good(s, a) && Enabled(s, MapAnonymous(pid, r))
    ensures Good(AttachAnonymous(s, pid, r), a + MappedCells(s.store.files, pid, r, Anonymous, 0))
  {
    hide Refines, RefsOk, RegionsOk, PtOk, FilesOk, FramesDistinct, Backed, ShowsCells, SameViews, MappedCells,
         InPlaceBut;
    var s1 := CreateObject(s, r.source, Anonymous, 0);
    CreateKeeps(s, r.source, Anonymous, 0, s1);
    CreatedInPlace(s, r.source, Anonymous, 0);
    SameViewsRefine(s.store, s.regions, s1.store, s1.regions, a);
    FreeKey(s.store.links, s.regions, pid, r);
    assert ChainOf(s1.store.pages, r.source) == [];
    MappedShows(s1.store, pid, r, Anonymous, 0);
    forall k' | k' in s1.regions ensures s1.regions[k'].source != r.source {
      assert k' !in RegRefs(s1.regions, r.source);
    }
    AttachRefines(s1, a, pid, r, MappedCells(s.store.files, pid, r, Anonymous, 0));
  }

  lemma NewFileStep(s: State, a: Memory, pid: nat, r: Region, vnode: nat)
    requires Good(s, a) && Enabled(s, MapFile(pid, r, vnode)) && vnode !in s.vmobj
    ensures Good(AttachFile(s, pid, r, vnode), a + MappedCells(s.store.files, pid, r, File, vnode))
  {
    hide Refines, RefsOk, RegionsOk, PtOk, FilesOk, FramesDistinct, Backed, ShowsCells, SameViews, MappedCells,
         InPlaceBut;
    var s1 := CreateObject(s, r.source, File, vnode).(vmobj := s.vmobj[vnode := r.source]);
    CreateKeeps(s, r.source, File, vnode, s1);
    CreatedInPlace(s, r.source, File, vnode);
    SameViewsRefine(s.store, s.regions, s1.store, s1.regions, a);
    FreeKey(s.store.links, s.regions, pid, r);
    assert ChainOf(s1.store.pages, r.source) == [];
    MappedShows(s1.store, pid, r, File, vnode);
    forall k' | k' in s1.regions ensures s1.regions[k'].source != r.source {
      assert k' !in RegRefs(s1.regions, r.source);
    }
    AttachRefines(s1, a, pid, r, MappedCells(s.store.files, pid, r, File, vnode));
  }

  // A file object already there: found as lookup would find it, and used by no private region.
  lemma FileObject(s: State, vnode: nat)
    requires Inv(s) && vnode in s.vmobj
    ensures var o := s.vmobj[vnode];
      && o in s.store.links && o in s.refs && s.refs[o].count >= 0
      && s.store.links[o].kind == File && s.store.links[o].next == 0 && s.store.links[o].vnode == vnode
      && HoldsFile(s.store.links[o], ChainOf(s.store.pages, o), s.store.mem, s.store.files)
      && (forall k :: k in s.regions && s.regions[k].source == o ==> !InPlace(s.regions[k]))
  {
    var o := s.vmobj[vnode];
    assert RefOk(s.store.links, s.regions, o, s.refs[o]);
    forall k | k in s.regions && s.regions[k].source == o ensures !InPlace(s.regions[k]) {
      IsRegionOk(s.store.links, s.regions, k);
    }
  }

  lemma OldFileStep(s: State, a: Memory, pid: nat, r: Region, vnode: nat)
    requires Good(s, a) && Enabled(s, MapFile(pid, r, vnode)) && vnode in s.vmobj && r.source in s.refs
    ensures Good(AttachFile(s, pid, r, vnode), a + MappedCells(s.store.files, pid, r, File, vnode))
  {
    hide Refines, RefsOk, RegionsOk, PtOk, FilesOk, FramesDistinct, Backed, ShowsCells, HoldsFile, MappedCells,
         InPlaceBut;
    FileObject(s, vnode);
    FreeKey(s.store.links, s.regions, pid, r);
    MappedShows(s.store, pid, r, File, vnode);
    AttachRefines(s, a, pid, r, MappedCells(s.store.files, pid, r, File, vnode));
  }

  // ---------------------------------------------------------------- accesses

  lemma FaultUsed(s: State, k: RegKey, vp: nat, write: bool, f: Frame, t: ObjId)
    requires Used(s) && Ranked(s.store.links) && t !in s.store.links
    requires Covers(s.regions, k, PageKey(k.pid, vp)) && s.regions[k].source in s.store.links
    requires Fault(s, k, vp, write, f, t).Done?
    ensures var s' := Fault(s, k, vp, write, f, t).s;
      Used(s') && s'.store.files == s.store.files && s'.regions.Keys == s.regions.Keys
  {
    hide Find, Bottom, Initial, Contents, Pushed, Ranked, Used, CopyPage;
    var n := PageNr(s.regions[k], vp);
    var found := Find(s.store.links, s.store.pages, s.regions[k].source, n);
    if found.Some? {
      var s1 := CopyPage(s, k, n, f, t, Contents(s.store.mem, found.value));
      CopyUsed(s, k, n, f, t, Contents(s.store.mem, found.value));
      SameObjectsUsed(s1, MapEntry(s1, PageKey(k.pid, vp), f, s.regions[k].writable));
    }
    var s' := Fault(s, k, vp, write, f, t).s;
    if s'.store.links == s.store.links && s'.refs == s.refs { SameObjectsUsed(s, s'); }
  }

  lemma CopyUsed(s: State, k: RegKey, n: nat, f: Frame, t: ObjId, c: Page)
    requires Used(s) && t !in s.store.links && k in s.regions && s.regions[k].source in s.store.links
    ensures var s' := CopyPage(s, k, n, f, t, c);
      Used(s') && s'.store.files == s.store.files && s'.regions.Keys == s.regions.Keys
  {
    hide Pushed;
  }

  // vm_fault's decision: killed if the access is not allowed, a pagein failure if the file is too short.
  lemma FaultDecides(s: State, k: RegKey, vp: nat, write: bool, f: Frame, t: ObjId)
    requires Inv(s) && CanFault(s, k, vp, write, f, t) && s.regions[k].source in s.store.links
    ensures
      var r := s.regions[k];
      var v := Value(s.store, r.source, PageNr(r, vp));
      match Fault(s, k, vp, write, f, t)
      case Segv => (write && !r.writable) || (!write && !r.readable)
      case PageinFailed => ((write && r.writable) || (!write && r.readable)) && v.None?
      case Done(s') => ((write && r.writable) || (!write && r.readable)) && v.Some?
      case UnknownFault => false
  {
    var r, e := s.regions[k], PageKey(k.pid, vp);
    IsRegionOk(s.store.links, s.regions, k);
    if e in s.pt { EntryOf(s, k, e); }
  }

  lemma FaultStep(s: State, a: Memory, k: RegKey, vp: nat, write: bool, f: Frame, t: ObjId)
    requires Good(s, a) && CanFault(s, k, vp, write, f, t) && s.regions[k].source in s.store.links
    ensures
      var r := FaultOutcome(s, Fault(s, k, vp, write, f, t));
      Good(r.s, a) && r.s.store.files == s.store.files
      && (a, r.out) == SimpleStep(a, s.store.files, PageFault(PageKey(k.pid, vp), write, f, t)) && r.out != Panic
  {
    hide Fault, Refines, RefsOk, RegionsOk, PtOk, FilesOk, StoreOk, Used, InPlaceBut, Value;
    FaultDecides(s, k, vp, write, f, t);
    CellAt(s.store, s.regions, a, k, PageKey(k.pid, vp));
    if Fault(s, k, vp, write, f, t).Done? {
      FaultDone(s, a, k, vp, write, f, t);
    }
  }

  lemma FaultDone(s: State, a: Memory, k: RegKey, vp: nat, write: bool, f: Frame, t: ObjId)
    requires Good(s, a) && CanFault(s, k, vp, write, f, t) && s.regions[k].source in s.store.links
    requires Fault(s, k, vp, write, f, t).Done?
    ensures var s' := Fault(s, k, vp, write, f, t).s; Good(s', a) && s'.store.files == s.store.files
  {
    hide Refines, RefsOk, RegionsOk, PtOk, FilesOk, FramesDistinct, Backed, SameViews, Fault, InPlaceBut;
    var s' := Fault(s, k, vp, write, f, t).s;
    FaultInPlace(s, k, vp, write, f, t);
    IsRegionOk(s.store.links, s.regions, k);
    FaultKeeps(s, k, vp, write, f, t);
    FaultUsed(s, k, vp, write, f, t);
    SameViewsRefine(s.store, s.regions, s'.store, s'.regions, a);
  }

  lemma FaultInPlace(s: State, k: RegKey, vp: nat, write: bool, f: Frame, t: ObjId)
    requires Inv(s) && InPlaceOk(s.store.links, s.regions) && Covers(s.regions, k, PageKey(k.pid, vp))
    requires s.regions[k].source in s.store.links && t !in s.store.links && t != 0
    requires Fault(s, k, vp, write, f, t).Done?
    ensures var s' := Fault(s, k, vp, write, f, t).s; InPlaceOk(s'.store.links, s'.regions)
  {
    hide Find, Bottom, Initial, Contents, Pushed, RefsOk, RegionsOk, PtOk, FilesOk, FramesDistinct, Backed, InPlaceBut;
    if s.regions[k].cow {
      NewShadowInPlace(s.store.links, s.regions, k, t, Link(Shadow, s.regions[k].source, 0, s.clock));
    }
  }

  // A load through an entry reads what the simple machine would.
  lemma LoadStep(s: State, a: Memory, e: PageKey, off: nat)
    requires Good(s, a) && Enabled(s, LoadByte(e, off))
    ensures (a, Loaded(Contents(s.store.mem, s.pt[e].frame)[off])) == SimpleStep(a, s.store.files, LoadByte(e, off))
  {
    hide Refines, RefsOk, RegionsOk, FilesOk, FramesDistinct, Backed;
    var k :| Covers(s.regions, k, e);
    EntryOf(s, k, e);
    CellAt(s.store, s.regions, a, k, e);
  }

  lemma CellAt(m: Store, regions: Regions, a: Memory, k: RegKey, e: PageKey)
    requires Refines(m, regions, a) && Covers(regions, k, e)
    ensures Placed(m, regions) && e in a && a[e] == CellOf(m, regions[k], e.vp)
  {}

  lemma StoreStep(s: State, a: Memory, e: PageKey, off: nat, b: Byte)
    requires e in s.pt && s.pt[e].writable && off < PAGESIZE && Good(s, a)
    ensures e in a && a[e].content.Some? && a[e].writable
    ensures Good(StoreByte(s, s.pt[e].frame, off, b), a[e := a[e].(content := Some(a[e].content.value[off := b]))])
  {
    hide Refines, RefsOk, RegionsOk, FilesOk, FramesDistinct, Backed, StoredViews, InPlaceBut;
    var k :| Covers(s.regions, k, e);
    StoreKeeps(s, k, e, off, b);
    EntryOf(s, k, e);
    CellAt(s.store, s.regions, a, k, e);
    StoreRefines(s.store, s.regions, a, k, e, off, b, StoreByte(s, s.pt[e].frame, off, b).store);
  }

  lemma StoreRefines(m: Store, regions: Regions, a: Memory, k: RegKey, e: PageKey, off: nat, b: Byte, m': Store)
    requires Refines(m, regions, a) && RegionsOk(m.links, regions) && Covers(regions, k, e)
    requires StoredViews(m, regions, k, PageNr(regions[k], e.vp), off, b, m')
    requires e in a && a[e].content.Some?
    ensures Refines(m', regions, a[e := a[e].(content := Some(a[e].content.value[off := b]))])
  {
    hide Value, Ranked, RegionOk;
    var a' := a[e := a[e].(content := Some(a[e].content.value[off := b]))];
    forall e', k' | Covers(regions, k', e') ensures a'[e'] == CellOf(m', regions[k'], e'.vp) {
      assert a[e'] == CellOf(m, regions[k'], e'.vp) && a[e] == CellOf(m, regions[k], e.vp);
      if e' == e { CoverUnique(regions, k, k', e); }
    }
  }

  // ---------------------------------------------------------------- fork and exit

  lemma ForkStarts(s: State, parent: nat, child: nat)
    requires Inv(s) && InPlaceOk(s.store.links, s.regions) && parent != child
    requires (forall k :: k in s.regions ==> k.pid != child) && (forall e :: e in s.pt ==> e.pid != child)
    ensures Forking(s, parent, child, {}, s)
    ensures forall k :: k in s.regions ==> k.first == s.regions[k].first
  {
    InvPlaced(s);
    forall k | k in s.regions ensures k.first == s.regions[k].first && RegionsApart(s.regions) {
      IsRegionOk(s.store.links, s.regions, k);
    }
    SameAsItself(s.store, s.regions);
    InPlaceOthers(s.store.links, s.regions, parent);
  }

  lemma ForkCopies(s: State, a: Memory, parent: nat, child: nat, plan: seq<ForkStep>)
    requires Good(s, a) && Enabled(s, Fork(parent, child, plan))
    ensures ForkAll(s, parent, child, plan).Some?
    ensures var s' := ForkAll(s, parent, child, plan).value;
      Good(s', a + CopiedCells(a, parent, child)) && s'.store.files == s.store.files
  {
    hide Inv, Refines, Used, ForkedUpTo, RegionsApart, InPlaceBut, NotInPlace;
    ForkStarts(s, parent, child);
    forall x | x in Firsts(plan) ensures RegKey(parent, x) in s.regions {
      var k :| k in s.regions && k.pid == parent && k.first == x;
      assert k == RegKey(parent, x);
    }
    ForkAllKeeps(s, parent, child, {}, s, s.store.links.Keys, plan);
    var s' := ForkAll(s, parent, child, plan).value;
    assert {} + Firsts(plan) == Firsts(plan);
    InvPlaced(s');
    ForkRefines(s, parent, child, Firsts(plan), s', a);
    forall k | k in s.regions && k.pid == parent ensures k.first in Firsts(plan) {
      assert k.first in FirstsOf(s.regions, parent);
    }
    ForkEnds(s, parent, child, Firsts(plan), s');
  }

  lemma ForkEnds(s: State, parent: nat, child: nat, all: set<nat>, s': State)
    requires Forking(s, parent, child, all, s') && forall k :: k in s.regions && k.pid == parent ==> k.first in all
    ensures InPlaceOk(s'.store.links, s'.regions)
  {
    hide InPlaceBut, SameRegion;
    ForkedInPlace(s'.store.links, s'.regions, parent);
  }

  lemma UnmapStep(s: State, a: Memory, k: RegKey, last: nat)
    requires Good(s, a) && Enabled(s, Unmap(k, last)) && s.regions[k].source in s.store.links
    requires Ranked(s.store.links) && s.refs.Keys == s.store.links.Keys
    ensures Detach(s, k).Some?
    ensures var s' := Detach(s, k).value;
      Good(s', WithoutRange(a, k.pid, k.first, last)) && s'.store.files == s.store.files
  {
    hide Refines, RefsOk, RegionsOk, PtOk, FilesOk, FramesDistinct, Backed, Used, SameViews, Detach, InPlaceBut;
    DetachKeeps'(s, k);
    var s' := Detach(s, k).value;
    IsRegionOk(s.store.links, s.regions, k);
    RemoveRegionRefines(s.store, s.regions, a, k);
    SameViewsRefine(s.store, s.regions - {k}, s'.store, s'.regions, WithoutRange(a, k.pid, k.first, last));
  }

  lemma ExitStep(s: State, a: Memory, pid: nat, order: seq<nat>)
    requires Good(s, a) && Enabled(s, Exit(pid, order))
    ensures DetachAll(DropProcess(s, pid), pid, order).Some?
    ensures var s' := DetachAll(DropProcess(s, pid), pid, order).value;
      Good(s', WithoutProcess(a, pid)) && s'.store.files == s.store.files
      && (forall k :: k in s'.regions ==> k.pid != pid)
  {
    hide Inv, Refines, Used, SameViews, InPlaceBut;
    var s1 := DropProcess(s, pid);
    DropProcessKeeps(s, pid);
    assert Used(s1) by { SameObjectsUsed(s, s1); }
    forall x | x in order ensures RegKey(pid, x) in s.regions {
      assert x in FirstsOf(s.regions, pid);
      var k :| k in s.regions && k.pid == pid && k.first == x;
      assert k == RegKey(pid, x);
    }
    DetachAllKeeps(s1, pid, order);
    var s' := DetachAll(s1, pid, order).value;
    forall k | k in s.regions && k.pid == pid ensures k.first in order { assert k.first in FirstsOf(s.regions, pid); }
    InvPlaced(s');
    ExitRefines(s.store, s.regions, a, pid, s'.regions);
    SameViewsRefine(s.store, s'.regions, s'.store, s'.regions, WithoutProcess(a, pid));
  }

  lemma SameObjectsUsed(s: State, s1: State)
    requires Used(s) && s1.store.links == s.store.links && s1.refs == s.refs
    ensures Used(s1)
  {}

  // ---------------------------------------------------------------- one step, and every run

  // Whatever happens, the shadow chains do what plain per-process pages would, with the same outcome. The
  // panics "chain is corrupt" and "unknown page fault" do not occur, and no freed object is used.
  lemma StepRefines(s: State, a: Memory, l: Label)
    requires Good(s, a) && Enabled(s, l)
    ensures Stepable(s)
    ensures
      var r := Step(s, l);
      var (a', out) := SimpleStep(a, s.store.files, l);
      Good(r.s, a') && r.out == out && out != Panic && r.s.store.files == s.store.files
  {
    hide Good, Enabled, FaultAt, HasMemory, Ranked, Detach, ForkAll, DetachAll, CutRegion, StoreByte, Contents,
         MappedCells, CopiedCells, WithoutRange, WithoutProcess;
    GoodIsStepable(s, a);
    match l
    case MapAnonymous(pid, r) => MapAnonymousStep(s, a, pid, r);
    case MapFile(pid, r, vnode) => MapFileStep(s, a, pid, r, vnode);
    case PageFault(e, write, f, t) => FaultStep'(s, a, e, write, f, t);
    case LoadByte(e, off) => LoadStep(s, a, e, off);
    case StoreByteAt(e, off, b) => StoreStep'(s, a, e, off, b);
    case Fork(parent, child, plan) => ForkCopies(s, a, parent, child, plan);
    case Unmap(k, last) => UnmapStep'(s, a, k, last);
    case UnmapPart(k, lo, hi) => UnmapPartStep(s, a, k, lo, hi);
    case Exit(pid, order) => ExitStep(s, a, pid, order);
  }

  lemma MapFileStep(s: State, a: Memory, pid: nat, r: Region, vnode: nat)
    requires Good(s, a) && Enabled(s, MapFile(pid, r, vnode))
    requires forall v :: v in s.vmobj ==> s.vmobj[v] in s.refs
    ensures Good(AttachFile(s, pid, r, vnode), a + MappedCells(s.store.files, pid, r, File, vnode))
  {
    hide Good;
    if vnode in s.vmobj { OldFileStep(s, a, pid, r, vnode); } else { NewFileStep(s, a, pid, r, vnode); }
  }

  // A fault anywhere: in a region, or outside all of them.
  lemma FaultStep'(s: State, a: Memory, e: PageKey, write: bool, f: Frame, t: ObjId)
    requires Good(s, a) && Enabled(s, PageFault(e, write, f, t)) && Placed(s.store, s.regions)
    ensures
      var r := FaultAt(s, e, write, f, t);
      Good(r.s, a) && r.s.store.files == s.store.files
      && (a, r.out) == SimpleStep(a, s.store.files, PageFault(e, write, f, t)) && r.out != Panic
  {
    hide Inv, Used, Fault, FreshFrame, Traps, InPlaceBut, HasMemory, HasRegions;
    match CoverOf(s.regions, e)
    case Some(k) =>
      assert e == PageKey(k.pid, e.vp);
      FaultStep(s, a, k, e.vp, write, f, t);
    case None =>
      MemoryOfRegions(s, a, e.pid);
      assert e !in a;
  }

  // A process sees some page exactly if it has a region.
  lemma MemoryOfRegions(s: State, a: Memory, pid: nat)
    requires Good(s, a)
    ensures HasMemory(a, pid) <==> HasRegions(s.regions, pid)
  {
    hide Used, RefsOk, RegionsOk, PtOk, FilesOk, StoreOk, InPlaceBut, Placed;
    if HasMemory(a, pid) {
      var e :| e in a && e.pid == pid;
      var k :| Covers(s.regions, k, e);
    }
    if HasRegions(s.regions, pid) {
      var k :| k in s.regions && k.pid == pid;
      IsRegionOk(s.store.links, s.regions, k);
      assert Covers(s.regions, k, PageKey(pid, k.first));
    }
  }

  // The region found is the one that covers the page.
  lemma FaultAtIs(s: State, k: RegKey, vp: nat, write: bool, f: Frame, t: ObjId)
    requires Inv(s) && Placed(s.store, s.regions) && Covers(s.regions, k, PageKey(k.pid, vp))
    ensures FaultAt(s, PageKey(k.pid, vp), write, f, t) == FaultOutcome(s, Fault(s, k, vp, write, f, t))
  {
    hide RefsOk, PtOk, FilesOk, StoreOk, Fault, FaultOutcome;
    CoverUnique(s.regions, k, CoverOf(s.regions, PageKey(k.pid, vp)).value, PageKey(k.pid, vp));
  }

  lemma StoreStep'(s: State, a: Memory, e: PageKey, off: nat, b: Byte)
    requires Good(s, a) && Enabled(s, StoreByteAt(e, off, b))
    ensures e in s.pt && off < PAGESIZE
    ensures
      var s' := StoreByte(s, s.pt[e].frame, off, b);
      var (a', out) := SimpleStep(a, s.store.files, StoreByteAt(e, off, b));
      Good(s', a') && out == Quiet && s'.store.files == s.store.files
  {
    hide Good;
    StoreStep(s, a, e, off, b);
  }

  lemma UnmapPartStep(s: State, a: Memory, k: RegKey, lo: nat, hi: nat)
    requires Good(s, a) && Enabled(s, UnmapPart(k, lo, hi)) && s.refs.Keys == s.store.links.Keys
    ensures Good(CutRegion(s, k, lo, hi), WithoutRange(a, k.pid, lo, hi))
    ensures CutRegion(s, k, lo, hi).store == s.store
  {
    hide Inv, Used, Refines, WithoutRange, InPlaceBut;
    CutKeeps(s, a, k, lo, hi);
  }

  lemma UnmapStep'(s: State, a: Memory, k: RegKey, last: nat)
    requires Good(s, a) && Enabled(s, Unmap(k, last))
    requires Placed(s.store, s.regions) && s.refs.Keys == s.store.links.Keys
    ensures Detach(s, k).Some?
    ensures var s' := Detach(s, k).value;
      Good(s', WithoutRange(a, k.pid, k.first, last)) && s'.store.files == s.store.files
  {
    hide Good;
    UnmapStep(s, a, k, last);
  }

  const NoMemory: Memory := map[]

  // The kernel with the files on its disks, before any process has memory.
  function Start(files: map<FilePage, Page>): State {
    Empty.(store := Empty.store.(files := files))
  }

  ghost predicate CanRun(s: State, ls: seq<Label>)
    decreases |ls|
  {
    ls == [] || (Stepable(s) && Enabled(s, ls[0]) && CanRun(Step(s, ls[0]).s, ls[1..]))
  }

  ghost function Run(s: State, ls: seq<Label>): (State, seq<Outcome>)
    requires CanRun(s, ls)
    decreases |ls|
  {
    if ls == [] then (s, [])
    else
      var r := Step(s, ls[0]);
      var (s', outs) := Run(r.s, ls[1..]);
      (s', [r.out] + outs)
  }

  ghost function SimpleRun(a: Memory, files: map<FilePage, Page>, ls: seq<Label>): (Memory, seq<Outcome>)
    decreases |ls|
  {
    if ls == [] then (a, [])
    else
      var (a1, out) := SimpleStep(a, files, ls[0]);
      var (a', outs) := SimpleRun(a1, files, ls[1..]);
      (a', [out] + outs)
  }

  lemma {:induction false} RunRefinesFrom(s: State, a: Memory, ls: seq<Label>)
    requires Good(s, a) && CanRun(s, ls)
    ensures
      var (s', outs) := Run(s, ls);
      var (a', simple) := SimpleRun(a, s.store.files, ls);
      Good(s', a') && outs == simple && Panic !in outs && s'.store.files == s.store.files
    decreases |ls|
  {
    hide Good, Enabled, Step, SimpleStep, Placed;
    if ls != [] {
      StepRefines(s, a, ls[0]);
      RunRefinesFrom(Step(s, ls[0]).s, SimpleStep(a, s.store.files, ls[0]).0, ls[1..]);
    }
  }

  lemma StartGood(files: map<FilePage, Page>)
    ensures Good(Start(files), NoMemory)
  {}

  // Copy-on-write is invisible: over every run from the start, every load, store, fault, fork and exit has exactly
  // the outcome it has when fork copies all of the parent's pages eagerly.
  lemma CopyOnWriteIsInvisible(files: map<FilePage, Page>, ls: seq<Label>)
    requires CanRun(Start(files), ls)
    ensures Run(Start(files), ls).1 == SimpleRun(NoMemory, files, ls).1
    ensures Panic !in Run(Start(files), ls).1
    ensures Good(Run(Start(files), ls).0, SimpleRun(NoMemory, files, ls).0)
  {
    StartGood(files);
    RunRefinesFrom(Start(files), NoMemory, ls);
  }

  // ---------------------------------------------------------------- what holds in every reachable state

  // A page-table entry names the frame lookup gives; if it allows writing, no other page of any process shows
  // that frame.
  lemma EntriesAreExact(s: State, a: Memory, k: RegKey, e: PageKey, k': RegKey, n: nat)
    requires Good(s, a) && e in s.pt && Covers(s.regions, k, e) && k' in s.regions
    ensures Stepable(s)
    ensures
      var m, r := s.store, s.regions[k];
      && Find(m.links, m.pages, r.source, PageNr(r, e.vp)) == Some(s.pt[e].frame)
      && (s.pt[e].writable ==>
            r.writable
            && (InPages(s.regions[k'], n) && Find(m.links, m.pages, s.regions[k'].source, n) == Some(s.pt[e].frame) ==>
                  k' == k && n == PageNr(r, e.vp)))
  {
    hide Refines, RefsOk, RegionsOk, FilesOk, FramesDistinct, Backed, Used;
    GoodIsStepable(s, a);
    EntryOf(s, k, e);
    IsRegionOk(s.store.links, s.regions, k');
    var f := Find(s.store.links, s.store.pages, s.regions[k'].source, n);
    if s.pt[e].writable && f == Some(s.pt[e].frame) && InPages(s.regions[k'], n) {
      PrivateFrame(s.store, s.regions, k, PageNr(s.regions[k], e.vp), k', n);
    }
  }

  // The counts are exact, and a shadow under other objects has the two referers recorded in it.
  lemma CountsAreExact(s: State, a: Memory, o: ObjId, x: ObjId)
    requires Good(s, a) && o in s.store.links && x in s.store.links && s.store.links[x].next == o
    ensures Stepable(s)
    ensures s.refs[o].count == |RegRefs(s.regions, o)| + |ObjRefs(s.store.links, o)|
    ensures s.store.links[o].kind == Shadow ==>
              && s.refs[o].count == 2 && s.refs[o].ref1 != s.refs[o].ref2
              && ObjRefs(s.store.links, o) == {s.refs[o].ref1, s.refs[o].ref2}
              && (x == s.refs[o].ref1 || x == s.refs[o].ref2)
  {
    GoodIsStepable(s, a);
    assert RefOk(s.store.links, s.regions, o, s.refs[o]);
    assert x in ObjRefs(s.store.links, o);
    if s.store.links[o].kind == Shadow { BelowHasNoRegions(s.store.links, s.regions, s.refs, o, x); }
  }

  // A load the region permits, on a page that exists, goes through after at most one fault.
  lemma LoadAfterOneFault(s: State, a: Memory, k: RegKey, vp: nat, f: Frame, t: ObjId, off: nat)
    requires Good(s, a) && Covers(s.regions, k, PageKey(k.pid, vp)) && off < PAGESIZE
    requires s.regions[k].readable && Value(s.store, s.regions[k].source, PageNr(s.regions[k], vp)).Some?
    requires FreshFrame(s.store.pages, f) && t !in s.store.links && t != 0
    ensures Stepable(s)
    ensures
      var e := PageKey(k.pid, vp);
      Enabled(s, LoadByte(e, off))
      || (Enabled(s, PageFault(e, false, f, t))
          && Step(s, PageFault(e, false, f, t)).out == Quiet
          && Enabled(Step(s, PageFault(e, false, f, t)).s, LoadByte(e, off)))
  {
    hide Refines, RefsOk, RegionsOk, PtOk, FilesOk, FramesDistinct, Backed, Used;
    GoodIsStepable(s, a);
    if PageKey(k.pid, vp) !in s.pt {
      FaultDecides(s, k, vp, false, f, t);
      FaultAtIs(s, k, vp, false, f, t);
    }
  }

  // After a write fault the entry is there. If it is not writable, the page has just been brought in, and the
  // next write fault copies it.
  lemma AfterWriteFault(s: State, k: RegKey, vp: nat, f: Frame, t: ObjId, f': Frame)
    requires Ranked(s.store.links) && Covers(s.regions, k, PageKey(k.pid, vp))
    requires s.regions[k].source in s.store.links && s.regions[k].writable
    requires Fault(s, k, vp, true, f, t).Done?
    ensures
      var s1 := Fault(s, k, vp, true, f, t).s;
      var m, r := s.store, s.regions[k];
      && PageKey(k.pid, vp) in s1.pt
      && (s1.pt[PageKey(k.pid, vp)].writable
          || (&& Find(m.links, m.pages, r.source, PageNr(r, vp)).None?
              && s1.regions == s.regions && s1.store.links == s.store.links
              && (f' != f && FreshFrame(s.store.pages, f') ==> FreshFrame(s1.store.pages, f'))))
  {
    hide Bottom, Initial, Contents;
    var r := s.regions[k];
    var found := Find(s.store.links, s.store.pages, r.source, PageNr(r, vp));
    if found.None? {
      var target := PageInTarget(s.store.links, r.source);
      FramesCons(PageRef(PageNr(r, vp), f), ChainOf(s.store.pages, target));
    }
  }

  // A permitted store goes through after at most two.
  lemma StoreAfterTwoFaults(s: State, a: Memory, k: RegKey, vp: nat, f: Frame, t: ObjId, f': Frame, t': ObjId, off: nat,
                            b: Byte)
    requires Good(s, a) && Covers(s.regions, k, PageKey(k.pid, vp)) && off < PAGESIZE
    requires s.regions[k].writable && Value(s.store, s.regions[k].source, PageNr(s.regions[k], vp)).Some?
    requires FreshFrame(s.store.pages, f) && t !in s.store.links && t != 0
    requires FreshFrame(s.store.pages, f') && f' != f && t' !in s.store.links && t' != 0
    ensures Stepable(s)
    ensures
      var e := PageKey(k.pid, vp);
      var first, second := PageFault(e, true, f, t), PageFault(e, true, f', t');
      Enabled(s, StoreByteAt(e, off, b))
      || (Enabled(s, first) && Step(s, first).out == Quiet
          && var s1 := Step(s, first).s;
          Enabled(s1, StoreByteAt(e, off, b))
          || (Stepable(s1) && Enabled(s1, second) && Step(s1, second).out == Quiet
              && Enabled(Step(s1, second).s, StoreByteAt(e, off, b))))
  {
    hide Refines, RefsOk, RegionsOk, PtOk, FilesOk, StoreOk, Used, Fault, FreshFrame, Value, Ranked, FaultAt;
    var e := PageKey(k.pid, vp);
    GoodIsStepable(s, a);
    if e !in s.pt || !s.pt[e].writable {
      FaultDecides(s, k, vp, true, f, t);
      FaultAtIs(s, k, vp, true, f, t);
      FaultDone(s, a, k, vp, true, f, t);
      var s1 := Fault(s, k, vp, true, f, t).s;
      AfterWriteFault(s, k, vp, f, t, f');
      if !s1.pt[e].writable {
        SecondFault(s1, a, k, vp, f', t');
        FaultAtIs(s1, k, vp, true, f', t');
      }
    }
  }

  lemma SecondFault(s1: State, a: Memory, k: RegKey, vp: nat, f: Frame, t: ObjId)
    requires Good(s1, a) && Covers(s1.regions, k, PageKey(k.pid, vp)) && s1.regions[k].writable
    requires PageKey(k.pid, vp) in s1.pt && !s1.pt[PageKey(k.pid, vp)].writable
    requires FreshFrame(s1.store.pages, f) && t !in s1.store.links && t != 0
    ensures Stepable(s1) && Fault(s1, k, vp, true, f, t).Done?
    ensures
      var s2 := Fault(s1, k, vp, true, f, t).s;
      PageKey(k.pid, vp) in s2.pt && s2.pt[PageKey(k.pid, vp)].writable
  {
    hide Refines, RefsOk, RegionsOk, FilesOk, FramesDistinct, Backed, Used, Fault;
    GoodIsStepable(s1, a);
    EntryOf(s1, k, PageKey(k.pid, vp));
    FaultDecides(s1, k, vp, true, f, t);
    AfterWriteFault(s1, k, vp, f, t, f);
  }

  // When no process has memory left, only cached file pages occupy frames.
  lemma NothingLeaks(files: map<FilePage, Page>, ls: seq<Label>, o: ObjId)
    requires CanRun(Start(files), ls) && Run(Start(files), ls).0.regions == map[]
    requires o in Run(Start(files), ls).0.store.links
    ensures Run(Start(files), ls).0.store.links[o].kind == File
  {
    CopyOnWriteIsInvisible(files, ls);
    OnlyFilesLeft(Run(Start(files), ls).0, o);
  }
}
