/** Runs of the virtual memory system, and the simple machine they implement: every process has its own pages,
    and fork copies all of them at once. */
module VmRuns {
  import opened Basics
  import opened VmObjects
  import opened VmModel
  import opened VmInvariants
  import opened VmFork
  import opened VmDetach
  import opened VmRefinement
  import opened VmInPlace

  // ---------------------------------------------------------------- the simple machine

  // content is None for a page of a mapped file that the file does not have.
  datatype Cell = Cell(content: Option<Page>, readable: bool, writable: bool)
  type Memory = map<PageKey, Cell>

  // The cells a new mapping of an untouched object adds.
  ghost function MappedCells(files: map<FilePage, Page>, pid: nat, r: Region, kind: Kind, vnode: nat): Memory {
    map vp | r.first <= vp <= r.last ::
      PageKey(pid, vp) := Cell(Initial(files, Link(kind, 0, vnode, 0), PageNr(r, vp)), r.readable, r.writable)
  }

  ghost function CopiedCells(a: Memory, parent: nat, child: nat): Memory {
    map e | e in a && e.pid == parent :: PageKey(child, e.vp) := a[e]
  }

  ghost function WithoutRange(a: Memory, pid: nat, first: nat, last: nat): Memory {
    map e | e in a && !(e.pid == pid && first <= e.vp <= last) :: a[e]
  }

  ghost function WithoutProcess(a: Memory, pid: nat): Memory {
    map e | e in a && e.pid != pid :: a[e]
  }

  // ---------------------------------------------------------------- refinement

  predicate Placed(m: Store, regions: Regions) {
    Ranked(m.links) && forall k :: k in regions ==> regions[k].source in m.links
  }

  function CellOf(m: Store, r: Region, vp: nat): Cell
    requires Ranked(m.links) && r.source in m.links && r.first <= vp
  {
    Cell(Value(m, r.source, PageNr(r, vp)), r.readable, r.writable)
  }

  ghost predicate Refines(m: Store, regions: Regions, a: Memory) {
    && Placed(m, regions)
    && (forall e :: e in a <==> exists k :: Covers(regions, k, e))
    && (forall e, k :: Covers(regions, k, e) ==> a[e] == CellOf(m, regions[k], e.vp))
  }

  lemma InvPlaced(s: State)
    requires Inv(s)
    ensures Placed(s.store, s.regions) && s.refs.Keys == s.store.links.Keys
  {
    forall k | k in s.regions ensures s.regions[k].source in s.store.links { IsRegionOk(s.store.links, s.regions, k); }
  }

  lemma SameCell(m: Store, r: Region, m': Store, r': Region, vp: nat)
    requires SameRegion(m, r, m', r') && r.first <= vp
    ensures CellOf(m', r', vp) == CellOf(m, r, vp)
  {}

  lemma SameViewsRefine(m: Store, regions: Regions, m': Store, regions': Regions, a: Memory)
    requires Refines(m, regions, a) && SameViews(m, regions, m', regions') && Ranked(m'.links)
    ensures Refines(m', regions', a)
  {
    forall k, e ensures Covers(regions', k, e) <==> Covers(regions, k, e) {
      if k in regions { assert SameRegion(m, regions[k], m', regions'[k]); }
    }
    forall k | k in regions' ensures regions'[k].source in m'.links && Ranked(m'.links) {
      assert SameRegion(m, regions[k], m', regions'[k]);
    }
    forall e ensures e in a <==> exists k :: Covers(regions', k, e) {
      if k :| Covers(regions, k, e) { assert Covers(regions', k, e); }
      if k :| Covers(regions', k, e) { assert Covers(regions, k, e); }
    }
    forall e, k | Covers(regions', k, e) ensures a[e] == CellOf(m', regions'[k], e.vp) {
      SameCell(m, regions[k], m', regions'[k], e.vp);
    }
  }

  lemma RemoveRegionRefines(m: Store, regions: Regions, a: Memory, k: RegKey)
    requires Refines(m, regions, a) && RegionsApart(regions) && k in regions
    ensures Refines(m, regions - {k}, WithoutRange(a, k.pid, regions[k].first, regions[k].last))
  {
    var regions', a' := regions - {k}, WithoutRange(a, k.pid, regions[k].first, regions[k].last);
    forall e ensures e in a' <==> exists k' :: Covers(regions', k', e) {
      if e in a' {
        var k' :| Covers(regions, k', e);
        assert Covers(regions', k', e);
      }
      if k' :| Covers(regions', k', e) {
        assert Covers(regions, k', e);
        assert k'.pid == k.pid ==> Apart(regions[k'], regions[k]);
      }
    }
    forall e, k' | Covers(regions', k', e) ensures a'[e] == CellOf(m, regions'[k'], e.vp) {
      assert Covers(regions, k', e);
    }
  }

  ghost predicate ShowsCells(m: Store, k: RegKey, r: Region, cells: Memory) {
    && Ranked(m.links) && r.source in m.links
    && (forall e :: e in cells <==> e.pid == k.pid && r.first <= e.vp <= r.last)
    && (forall e :: e in cells ==> cells[e] == CellOf(m, r, e.vp))
  }

  lemma AddRegionRefines(m: Store, regions: Regions, a: Memory, k: RegKey, r: Region, cells: Memory)
    requires Refines(m, regions, a) && k !in regions && ShowsCells(m, k, r, cells)
    requires forall k' :: k' in regions && k'.pid == k.pid ==> Apart(regions[k'], r)
    ensures Refines(m, regions[k := r], a + cells)
  {
    hide CellOf, Ranked;
    var regions', a' := regions[k := r], a + cells;
    forall e ensures e in a' <==> exists k' :: Covers(regions', k', e) {
      if e in cells { assert Covers(regions', k, e); }
      if e in a {
        var k' :| Covers(regions, k', e);
        assert Covers(regions', k', e);
      }
      if k' :| Covers(regions', k', e) {
        if k' != k { assert Covers(regions, k', e); }
      }
    }
    forall e, k' | Covers(regions', k', e) ensures a'[e] == CellOf(m, regions'[k'], e.vp) {
      if k' != k {
        assert Covers(regions, k', e);
        assert k'.pid == k.pid ==> Apart(regions[k'], r);
      }
    }
  }

  lemma {:induction false} UpperBound(ids: set<nat>) returns (n: nat)
    ensures forall o :: o in ids ==> o < n
  {
    n := 0;
    if ids != {} {
      var x :| x in ids;
      n := UpperBound(ids - {x});
      assert forall o :: o in ids ==> o == x || o in ids - {x};
      if n <= x { n := x + 1; }
    }
  }

  // ---------------------------------------------------------------- fork, all regions

  // One region of the parent and the addresses of the two shadows made for it.
  datatype ForkStep = ForkStep(first: nat, t1: ObjId, t2: ObjId)

  function ForkAll(s: State, parent: nat, child: nat, plan: seq<ForkStep>): Option<State>
    decreases |plan|
  {
    if plan == [] then Some(s)
    else
      var k := RegKey(parent, plan[0].first);
      if k in s.regions && s.regions[k].source in s.store.links && s.regions[k].source in s.refs then
        ForkAll(ForkRegion(s, k, child, plan[0].t1, plan[0].t2), parent, child, plan[1..])
      else None
  }

  function Firsts(plan: seq<ForkStep>): set<nat> {
    if plan == [] then {} else {plan[0].first} + Firsts(plan[1..])
  }

  // malloc gives new addresses only, and the loop visits a region once.
  predicate GoodPlan(used: set<ObjId>, done: set<nat>, plan: seq<ForkStep>)
    decreases |plan|
  {
    plan == [] ||
    var t1, t2 := plan[0].t1, plan[0].t2;
    && t1 !in used && t2 !in used && t1 != t2 && t1 != 0 && t2 != 0 && plan[0].first !in done
    && GoodPlan(used + {t1, t2}, done + {plan[0].first}, plan[1..])
  }

  // Regions x in done have been copied; nothing the old regions show has changed.
  ghost predicate ForkedUpTo(s0: State, parent: nat, child: nat, done: set<nat>, s: State) {
    && (forall k :: k in s.regions <==> k in s0.regions || (k.pid == child && k.first in done))
    && (forall k :: k in s0.regions ==> SameRegion(s0.store, s0.regions[k], s.store, s.regions[k]))
    && (forall x :: x in done ==>
                      && RegKey(parent, x) in s0.regions && RegKey(child, x) in s.regions
                      && SameRegion(s0.store, s0.regions[RegKey(parent, x)], s.store, s.regions[RegKey(child, x)]))
  }

  lemma SameRegionTransitive(m1: Store, r1: Region, m2: Store, r2: Region, m3: Store, r3: Region)
    requires SameRegion(m1, r1, m2, r2) && SameRegion(m2, r2, m3, r3)
    ensures SameRegion(m1, r1, m3, r3)
  {
    forall n ensures Value(m3, r3.source, n) == Value(m1, r1.source, n) {
      assert Value(m2, r2.source, n) == Value(m1, r1.source, n);
    }
  }

  lemma ForkedViewsCompose(s0: State, parent: nat, child: nat, done: set<nat>, s: State, x: nat, s': State)
    requires parent != child && (forall k :: k in s0.regions ==> k.pid != child)
    requires ForkedUpTo(s0, parent, child, done, s) && x !in done && RegKey(parent, x) in s0.regions
    requires ForkedViews(s, RegKey(parent, x), child, s')
    ensures ForkedUpTo(s0, parent, child, done + {x}, s')
  {
    forall k | k in s0.regions ensures SameRegion(s0.store, s0.regions[k], s'.store, s'.regions[k]) {
      SameRegionTransitive(s0.store, s0.regions[k], s.store, s.regions[k], s'.store, s'.regions[k]);
    }
    forall y | y in done + {x}
      ensures RegKey(parent, y) in s0.regions && RegKey(child, y) in s'.regions
      ensures SameRegion(s0.store, s0.regions[RegKey(parent, y)], s'.store, s'.regions[RegKey(child, y)])
    {
      var k, ck := RegKey(parent, y), RegKey(child, y);
      if y == x {
        SameRegionTransitive(s0.store, s0.regions[k], s.store, s.regions[k], s'.store, s'.regions[ck]);
      } else {
        SameRegionTransitive(s0.store, s0.regions[k], s.store, s.regions[ck], s'.store, s'.regions[ck]);
      }
    }
  }

  lemma ForkApart(s0: State, parent: nat, child: nat, done: set<nat>, s: State, x: nat)
    requires parent != child && (forall k :: k in s0.regions ==> k.pid != child) && RegionsApart(s0.regions)
    requires ForkedUpTo(s0, parent, child, done, s) && x !in done && RegKey(parent, x) in s0.regions
    ensures RegKey(parent, x) in s.regions && RegKey(child, x) !in s.regions
    ensures forall k' :: k' in s.regions && k'.pid == child ==> Apart(s.regions[k'], s.regions[RegKey(parent, x)])
  {
    forall k' | k' in s.regions && k'.pid == child ensures Apart(s.regions[k'], s.regions[RegKey(parent, x)]) {
      assert k' == RegKey(child, k'.first);
      assert Apart(s0.regions[RegKey(parent, k'.first)], s0.regions[RegKey(parent, x)]);
      assert SameRegion(s0.store, s0.regions[RegKey(parent, x)], s.store, s.regions[RegKey(parent, x)]);
    }
  }

  // The child exists, has no regions but the copied ones, and has no pages mapped.
  ghost predicate Forking(s0: State, parent: nat, child: nat, done: set<nat>, s: State) {
    && parent != child && (forall k :: k in s0.regions ==> k.pid != child) && RegionsApart(s0.regions)
    && ForkedUpTo(s0, parent, child, done, s)
    && (forall e :: e in s.pt ==> e.pid != child)
    && s.store.files == s0.store.files
    && InPlaceBut(s.store.links, s.regions, {parent}) && NotInPlace(s.regions, parent, done)
  }

  predicate NotInPlace(regions: Regions, pid: nat, done: set<nat>) {
    forall k :: k in regions && k.pid == pid && k.first in done ==> !InPlace(regions[k])
  }

  // A round of fork leaves nothing of the region to be written in place.
  lemma ForkStepInPlace(s: State, k: RegKey, child: nat, t1: ObjId, t2: ObjId, done: set<nat>)
    requires Inv(s) && CanFork(s.store.links, s.regions, k, child, t1, t2)
    requires s.regions[k].source in s.store.links && s.regions[k].source in s.refs
    requires InPlaceBut(s.store.links, s.regions, {k.pid}) && NotInPlace(s.regions, k.pid, done) && child != k.pid
    ensures var s1 := ForkRegion(s, k, child, t1, t2);
      InPlaceBut(s1.store.links, s1.regions, {k.pid}) && NotInPlace(s1.regions, k.pid, done + {k.first})
  {
    hide RefsOk, PtOk, FilesOk, FramesDistinct, Backed, InPlaceBut;
    IsRegionOk(s.store.links, s.regions, k);
    if s.regions[k].writable {
      ForkInPlace(s.store.links, s.regions, k, child, t1, t2, Link(Shadow, s.regions[k].source, 0, s.clock));
    } else {
      ForkReadOnlyInPlace(s.store.links, s.regions, k, child);
    }
  }

  lemma ForkUsed(s: State, k: RegKey, child: nat, t1: ObjId, t2: ObjId)
    requires Used(s) && k in s.regions && s.regions[k].source in s.store.links && s.regions[k].source in s.refs
    requires t1 !in s.store.links && t2 !in s.store.links && s.refs[s.regions[k].source].count >= 0
    ensures var s1 := ForkRegion(s, k, child, t1, t2);
      && Used(s1) && s1.pt.Keys == s.pt.Keys && s1.store.files == s.store.files
      && s1.store.links.Keys <= s.store.links.Keys + {t1, t2}
  {}

  lemma SourceCount(s: State, k: RegKey)
    requires Inv(s) && k in s.regions
    ensures s.regions[k].source in s.store.links && s.regions[k].source in s.refs
    ensures s.refs[s.regions[k].source].count >= 1
  {
    InvPlaced(s);
    CountOf(s.store.links, s.regions, s.refs, k);
  }

  lemma ForkStepKeeps(s0: State, parent: nat, child: nat, done: set<nat>, s: State, x: nat, t1: ObjId, t2: ObjId)
    requires Inv(s) && Used(s) && Forking(s0, parent, child, done, s) && x !in done && RegKey(parent, x) in s0.regions
    requires t1 !in s.store.links && t2 !in s.store.links && t1 != t2 && t1 != 0 && t2 != 0
    ensures var k := RegKey(parent, x);
      k in s.regions && s.regions[k].source in s.store.links && s.regions[k].source in s.refs
    ensures var s1 := ForkRegion(s, RegKey(parent, x), child, t1, t2);
      Inv(s1) && Used(s1) && Forking(s0, parent, child, done + {x}, s1)
      && s1.store.links.Keys <= s.store.links.Keys + {t1, t2}
  {
    hide Inv, ForkedUpTo, RegionsApart, ForkedViews, Used, ForkRegion, InPlaceBut, NotInPlace;
    var k := RegKey(parent, x);
    ForkApart(s0, parent, child, done, s, x);
    InvPlaced(s);
    SourceCount(s, k);
    ForkUsed(s, k, child, t1, t2);
    ForkRegionKeeps(s, k, child, t1, t2);
    ForkStepInPlace(s, k, child, t1, t2, done);
    ForkedViewsCompose(s0, parent, child, done, s, x, ForkRegion(s, k, child, t1, t2));
  }

  lemma {:induction false} ForkAllKeeps(s0: State, parent: nat, child: nat, done: set<nat>, s: State,
                                        used: set<ObjId>, plan: seq<ForkStep>)
    requires Inv(s) && Used(s) && Forking(s0, parent, child, done, s)
    requires s.store.links.Keys <= used && GoodPlan(used, done, plan)
    requires forall x :: x in Firsts(plan) ==> RegKey(parent, x) in s0.regions
    ensures ForkAll(s, parent, child, plan).Some?
    ensures var s' := ForkAll(s, parent, child, plan).value;
      Inv(s') && Used(s') && Forking(s0, parent, child, done + Firsts(plan), s')
    decreases |plan|
  {
    hide Inv, Forking, Used;
    if plan == [] {
      assert done + Firsts(plan) == done;
    } else {
      var x, t1, t2 := plan[0].first, plan[0].t1, plan[0].t2;
      ForkStepKeeps(s0, parent, child, done, s, x, t1, t2);
      ForkAllKeeps(s0, parent, child, done + {x}, ForkRegion(s, RegKey(parent, x), child, t1, t2), used + {t1, t2},
                   plan[1..]);
      assert done + {x} + Firsts(plan[1..]) == done + Firsts(plan);
    }
  }

  // The child's pages are a copy of the parent's.
  lemma ForkRefines(s: State, parent: nat, child: nat, all: set<nat>, s': State, a: Memory)
    requires Refines(s.store, s.regions, a) && parent != child && (forall k :: k in s.regions ==> k.pid != child)
    requires ForkedUpTo(s, parent, child, all, s') && Placed(s'.store, s'.regions)
    requires forall k :: k in s.regions && k.pid == parent ==> k.first in all
    requires forall k :: k in s.regions ==> k.first == s.regions[k].first
    ensures Refines(s'.store, s'.regions, a + CopiedCells(a, parent, child))
  {
    hide CopiedCells, SameRegion, CellOf, Ranked, ForkedUpTo;
    var copied := CopiedCells(a, parent, child);
    var a' := a + copied;
    CopiedIs(a, parent, child);
    forall k, e | Covers(s'.regions, k, e)
      ensures e in a' && a'[e] == CellOf(s'.store, s'.regions[k], e.vp)
    {
      ForkCell(s, parent, child, all, s', a, k, e);
    }
    forall e | e in a' ensures exists k :: Covers(s'.regions, k, e) {
      var k :| Covers(s.regions, k, if e in copied then PageKey(parent, e.vp) else e);
      ForkCovers(s, parent, child, all, s', k, e.vp);
      assert Covers(s'.regions, if e in copied then RegKey(child, k.first) else k, e);
    }
  }

  lemma CopiedIs(a: Memory, parent: nat, child: nat)
    ensures var copied := CopiedCells(a, parent, child);
      && (forall e :: e in copied <==> e.pid == child && PageKey(parent, e.vp) in a)
      && (forall e :: e in copied ==> copied[e] == a[PageKey(parent, e.vp)])
  {
    var copied := CopiedCells(a, parent, child);
    forall e ensures e in copied <==> e.pid == child && PageKey(parent, e.vp) in a {
      assert e.pid == child ==> e == PageKey(child, PageKey(parent, e.vp).vp);
    }
  }

  lemma ForkCovers(s: State, parent: nat, child: nat, all: set<nat>, s': State, k: RegKey, vp: nat)
    requires ForkedUpTo(s, parent, child, all, s') && Covers(s.regions, k, PageKey(k.pid, vp))
    ensures Covers(s'.regions, k, PageKey(k.pid, vp))
    ensures k.pid == parent && k.first in all ==> Covers(s'.regions, RegKey(child, k.first), PageKey(child, vp))
  {
    assert SameRegion(s.store, s.regions[k], s'.store, s'.regions[k]);
    if k.pid == parent && k.first in all { assert k == RegKey(parent, k.first); }
  }

  lemma ForkCell(s: State, parent: nat, child: nat, all: set<nat>, s': State, a: Memory, k: RegKey, e: PageKey)
    requires Refines(s.store, s.regions, a) && parent != child && (forall k :: k in s.regions ==> k.pid != child)
    requires ForkedUpTo(s, parent, child, all, s') && Placed(s'.store, s'.regions) && Covers(s'.regions, k, e)
    ensures
      if e.pid == child
      then PageKey(parent, e.vp) in a && a[PageKey(parent, e.vp)] == CellOf(s'.store, s'.regions[k], e.vp)
      else e in a && a[e] == CellOf(s'.store, s'.regions[k], e.vp)
    ensures e.pid == child ==> e !in a
  {
    var k0 := if k.pid == child then RegKey(parent, k.first) else k;
    var e0 := if k.pid == child then PageKey(parent, e.vp) else e;
    assert SameRegion(s.store, s.regions[k0], s'.store, s'.regions[k]);
    assert Covers(s.regions, k0, e0);
    SameCell(s.store, s.regions[k0], s'.store, s'.regions[k], e.vp);
  }

  // ---------------------------------------------------------------- exit, all regions

  function DropProcess(s: State, pid: nat): State {
    s.(pt := map e | e in s.pt && e.pid != pid :: s.pt[e])
  }

  function DetachAll(s: State, pid: nat, order: seq<nat>): Option<State>
    decreases |order|
  {
    if order == [] then Some(s)
    else
      var k := RegKey(pid, order[0]);
      if && Ranked(s.store.links) && s.refs.Keys == s.store.links.Keys && k in s.regions
         && s.regions[k].source in s.store.links
      then
        var s1 := Detach(s, k);
        if s1.None? then None else DetachAll(s1.value, pid, order[1..])
      else None
  }

  lemma DropProcessKeeps(s: State, pid: nat)
    requires Inv(s)
    ensures Inv(DropProcess(s, pid))
  {
    hide RefsOk, RegionsOk, FilesOk, StoreOk;
  }

  predicate Distinct(xs: seq<nat>) { xs == [] || (xs[0] !in xs[1..] && Distinct(xs[1..])) }

  // The regions of pid that are in order have been detached; the others show what they did.
  ghost predicate DetachedUpTo(s: State, pid: nat, order: seq<nat>, s': State) {
    && (forall k :: k in s'.regions <==> k in s.regions && !(k.pid == pid && k.first in order))
    && SameViews(s.store, s'.regions, s'.store, s'.regions)
    && (forall k :: k in s'.regions ==> s'.regions[k] == s.regions[k])
    && s'.store.files == s.store.files
  }

  lemma {:induction false} DetachAllKeeps(s: State, pid: nat, order: seq<nat>)
    requires Inv(s) && InPlaceOk(s.store.links, s.regions) && Used(s) && Distinct(order)
    requires forall x :: x in order ==> RegKey(pid, x) in s.regions
    ensures DetachAll(s, pid, order).Some?
    ensures var s' := DetachAll(s, pid, order).value;
      Inv(s') && InPlaceOk(s'.store.links, s'.regions) && Used(s') && DetachedUpTo(s, pid, order, s')
    decreases |order|
  {
    hide Inv, Used, SameViews, Detach, InPlaceOk;
    InvPlaced(s);
    if order == [] {
      SameAsItself(s.store, s.regions);
    } else {
      var k := RegKey(pid, order[0]);
      DetachKeeps'(s, k);
      var s1 := Detach(s, k).value;
      DetachAllKeeps(s1, pid, order[1..]);
      var s' := DetachAll(s1, pid, order[1..]).value;
      FewerViews(s.store, s1.regions, s1.store, s'.regions);
      SameViewsTransitive(s.store, s1.store, s'.store, s'.regions);
    }
  }

  lemma DetachKeeps'(s: State, k: RegKey)
    requires Inv(s) && InPlaceOk(s.store.links, s.regions) && k in s.regions
    ensures Placed(s.store, s.regions) && s.refs.Keys == s.store.links.Keys
    ensures Detached(s, k, Detach(s, k))
    ensures var s' := Detach(s, k).value; InPlaceOk(s'.store.links, s'.regions)
  {
    hide SameViews, Used, NoNewReferers, RefsOk, RegionsOk, PtOk, FilesOk, StoreOk, Detach, InPlaceOk;
    InvPlaced(s);
    DetachKeeps(s, k);
    DetachInPlace(s, k, Detach(s, k).value);
  }

  lemma SameAsItself(m: Store, regions: Regions)
    requires Placed(m, regions)
    ensures SameViews(m, regions, m, regions)
  {}

  lemma FewerViews(m: Store, regions: Regions, m': Store, fewer: Regions)
    requires SameViews(m, regions, m', regions)
    requires forall k :: k in fewer ==> k in regions && fewer[k] == regions[k]
    ensures SameViews(m, fewer, m', fewer)
  {
    forall k | k in fewer ensures SameRegion(m, fewer[k], m', fewer[k]) {
      assert SameRegion(m, regions[k], m', regions[k]);
    }
  }

  lemma ExitRefines(m: Store, regions: Regions, a: Memory, pid: nat, rest: Regions)
    requires Refines(m, regions, a)
    requires forall k :: k in rest <==> k in regions && k.pid != pid
    requires forall k :: k in rest ==> rest[k] == regions[k]
    ensures Refines(m, rest, WithoutProcess(a, pid))
  {
    var a' := WithoutProcess(a, pid);
    forall e ensures e in a' <==> exists k :: Covers(rest, k, e) {
      if e in a' {
        var k :| Covers(regions, k, e);
        assert Covers(rest, k, e);
      }
      if k :| Covers(rest, k, e) { assert Covers(regions, k, e); }
    }
    forall e, k | Covers(rest, k, e) ensures a'[e] == CellOf(m, rest[k], e.vp) {
      assert Covers(regions, k, e);
    }
  }

  // ---------------------------------------------------------------- runs

  // What happens. The parts a caller cannot choose (addresses from malloc, the order of a process' region list)
  // are in the label, so that every choice is covered.
  datatype Label =
    | MapAnonymous(pid: nat, r: Region)
    | MapFile(pid: nat, r: Region, vnode: nat)
    | PageFault(e: PageKey, write: bool, f: Frame, t: ObjId)
    | LoadByte(e: PageKey, off: nat)
    | StoreByteAt(e: PageKey, off: nat, b: Byte)
    | Fork(parent: nat, child: nat, plan: seq<ForkStep>)
    | Unmap(k: RegKey, last: nat)
    | UnmapPart(k: RegKey, lo: nat, hi: nat)
    | Exit(pid: nat, order: seq<nat>)

  // Two panics depend on what the process has mapped: PageinPanic, where the file has no such page, and NoRegionsPanic,
  // where the process has no region at all. Panic stands for the others, and for the use of an object that is free.
  datatype Outcome = Quiet | Loaded(b: Byte) | Killed | PageinPanic | NoRegionsPanic | Panic

  datatype Result = Result(s: State, out: Outcome)

  predicate FreePlace(regions: Regions, pid: nat, r: Region) {
    r.first <= r.last && forall k :: k in regions && k.pid == pid ==> Apart(regions[k], r)
  }

  function FirstsOf(regions: Regions, pid: nat): set<nat> {
    set k | k in regions && k.pid == pid :: k.first
  }

  // The hardware faults only where an entry does not allow the access.
  predicate Traps(s: State, e: PageKey, write: bool) { e !in s.pt || (write && !s.pt[e].writable) }

  predicate NewAddresses(s: State, f: Frame, t: ObjId) {
    FreshFrame(s.store.pages, f) && t !in s.store.links && t != 0
  }

  // A fault in region k.
  predicate CanFault(s: State, k: RegKey, vp: nat, write: bool, f: Frame, t: ObjId) {
    Covers(s.regions, k, PageKey(k.pid, vp)) && Traps(s, PageKey(k.pid, vp), write) && NewAddresses(s, f, t)
  }

  // When the event can happen: callers map free pages, malloc returns new addresses, and a load or store goes
  // through an entry that allows it.
  predicate Enabled(s: State, l: Label) {
    match l
    case MapAnonymous(pid, r) =>
      r.source !in s.store.links && r.source != 0 && FreePlace(s.regions, pid, r) && (r.cow ==> r.writable)
    case MapFile(pid, r, vnode) =>
      && FreePlace(s.regions, pid, r) && r.cow == r.writable
      && (if vnode in s.vmobj then r.source == s.vmobj[vnode] else r.source !in s.store.links && r.source != 0)
    case PageFault(e, write, f, t) => Traps(s, e, write) && NewAddresses(s, f, t)
    case LoadByte(e, off) => e in s.pt && off < PAGESIZE
    case StoreByteAt(e, off, b) => e in s.pt && s.pt[e].writable && off < PAGESIZE
    case Fork(parent, child, plan) =>
      && parent != child && (forall k :: k in s.regions ==> k.pid != child)
      && (forall e :: e in s.pt ==> e.pid != child)
      && Firsts(plan) == FirstsOf(s.regions, parent) && GoodPlan(s.store.links.Keys, {}, plan)
    case Unmap(k, last) => k in s.regions && last == s.regions[k].last
    case UnmapPart(k, lo, hi) =>
      && CanCut(s.regions, k, lo, hi) && s.regions[k].source in s.store.links
      && (InTwo(s.regions[k], lo, hi) ==> s.store.links[s.regions[k].source].kind != Shadow)
    case Exit(pid, order) => Distinct(order) && (set x | x in order) == FirstsOf(s.regions, pid)
  }

  function OrPanic(s: State, r: Option<State>): Result {
    match r
    case Some(s') => Result(s', Quiet)
    case None => Result(s, Panic)
  }

  // The region that vm_fault finds: regions do not overlap.
  ghost function CoverOf(regions: Regions, e: PageKey): (k: Option<RegKey>)
    ensures k.Some? ==> Covers(regions, k.value, e)
    ensures k.None? ==> forall k' :: !Covers(regions, k', e)
  {
    if k :| Covers(regions, k, e) then Some(k) else None
  }

  ghost predicate HasRegions(regions: Regions, pid: nat) { exists k :: k in regions && k.pid == pid }

  // vm_fault at any page of a process.
  ghost function FaultAt(s: State, e: PageKey, write: bool, f: Frame, t: ObjId): Result
    requires Placed(s.store, s.regions)
  {
    match CoverOf(s.regions, e)
    case Some(k) => FaultOutcome(s, Fault(s, k, e.vp, write, f, t))
    case None => Result(s, if HasRegions(s.regions, e.pid) then Killed else NoRegionsPanic)
  }

  ghost function Step(s: State, l: Label): Result
    requires Placed(s.store, s.regions) && s.refs.Keys == s.store.links.Keys && Enabled(s, l)
    requires forall v :: v in s.vmobj ==> s.vmobj[v] in s.refs
  {
    match l
    case MapAnonymous(pid, r) => Result(AttachAnonymous(s, pid, r), Quiet)
    case MapFile(pid, r, vnode) => Result(AttachFile(s, pid, r, vnode), Quiet)
    case PageFault(e, write, f, t) => FaultAt(s, e, write, f, t)
    case LoadByte(e, off) => Result(s, Loaded(Contents(s.store.mem, s.pt[e].frame)[off]))
    case StoreByteAt(e, off, b) => Result(StoreByte(s, s.pt[e].frame, off, b), Quiet)
    case Fork(parent, child, plan) => OrPanic(s, ForkAll(s, parent, child, plan))
    case Unmap(k, last) => OrPanic(s, Detach(s, k))
    case UnmapPart(k, lo, hi) => Result(CutRegion(s, k, lo, hi), Quiet)
    case Exit(pid, order) => OrPanic(s, DetachAll(DropProcess(s, pid), pid, order))
  }

  function FaultOutcome(s: State, r: FaultResult): Result {
    match r
    case Done(s') => Result(s', Quiet)
    case Segv => Result(s, Killed)
    case PageinFailed => Result(s, PageinPanic)
    case UnknownFault => Result(s, Panic)
  }

  ghost predicate HasMemory(a: Memory, pid: nat) { exists e :: e in a && e.pid == pid }

  // The same event on plain per-process pages.
  ghost function SimpleStep(a: Memory, files: map<FilePage, Page>, l: Label): (Memory, Outcome) {
    match l
    case MapAnonymous(pid, r) => (a + MappedCells(files, pid, r, Anonymous, 0), Quiet)
    case MapFile(pid, r, vnode) => (a + MappedCells(files, pid, r, File, vnode), Quiet)
    case PageFault(e, write, f, t) =>
      (a, if e !in a then if HasMemory(a, e.pid) then Killed else NoRegionsPanic
          else if (write && !a[e].writable) || (!write && !a[e].readable) then Killed
          else if a[e].content.None? then PageinPanic else Quiet)
    case LoadByte(e, off) =>
      (a, if e in a && a[e].content.Some? && off < PAGESIZE then Loaded(a[e].content.value[off]) else Panic)
    case StoreByteAt(e, off, b) =>
      if e in a && a[e].content.Some? && a[e].writable && off < PAGESIZE
      then (a[e := a[e].(content := Some(a[e].content.value[off := b]))], Quiet)
      else (a, Panic)
    case Fork(parent, child, plan) => (a + CopiedCells(a, parent, child), Quiet)
    case Unmap(k, last) => (WithoutRange(a, k.pid, k.first, last), Quiet)
    case UnmapPart(k, lo, hi) => (WithoutRange(a, k.pid, lo, hi), Quiet)
    case Exit(pid, order) => (WithoutProcess(a, pid), Quiet)
  }
}
