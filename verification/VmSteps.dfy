/** What each step of the kernel keeps: the object table mirrors the model's objects, and the heap holds what it
    should. */
module VmSteps {
  import opened Basics
  import opened VmObjects
  import opened VmModel
  import opened VmInvariants
  import opened VmRefinement
  import opened VmDetach
  import opened VmThreads
  import opened VmLists
  import opened VmRuns
  import opened VmTheorems
  import M = Mcbs
  import Malloc

  predicate MirrorsOne(r: VmObject, l: Link, c: Refs) {
    && r.kind == l.kind && r.next == l.next && r.vnode == (if l.kind == File then Some(l.vnode) else None)
    && r.refcount == c.count && r.ref1 == c.ref1 && r.ref2 == c.ref2
  }

  predicate Mirror(objects: Objects, links: Links, refs: map<ObjId, Refs>) {
    && objects.Keys == links.Keys && refs.Keys == links.Keys
    && forall o {:trigger objects[o]} :: o in objects ==> MirrorsOne(objects[o], links[o], refs[o])
  }

  lemma MoreOthers(m: M.Mem, memory: seq<Page>, objects: Objects, pages: Pages, mem: map<Frame, Page>,
                   others: set<nat>, others': set<nat>)
    requires Coupled(m, memory, objects, pages, mem, others) && others <= others'
    ensures Coupled(m, memory, objects, pages, mem, others')
  {
    hide ObjectsHeld, FramesDistinct, M.BlockAt, OnSomeChain;
  }

  lemma PageHead(m: M.Mem, i: Frame)
    requires i < |m| && (m[i].size == PAGESIZE || m[i].size == M.VMOBJECT_PAGE)
    ensures Malloc.HeadOf(m, i * PAGESIZE) == i * PAGESIZE
  {}

  lemma MemorySize(m: M.Mem, memory: seq<Page>, objects: Objects, pages: Pages, mem: map<Frame, Page>, others: set<nat>)
    requires Coupled(m, memory, objects, pages, mem, others)
    ensures |memory| == |m|
  {}

  lemma MirrorAt(objects: Objects, links: Links, refs: map<ObjId, Refs>, o: ObjId)
    requires Mirror(objects, links, refs) && o in links
    ensures objects.Keys == links.Keys && refs.Keys == links.Keys && MirrorsOne(objects[o], links[o], refs[o])
  {
    assert objects[o] == objects[o];
  }

  lemma SameMirror(objects: Objects, s: State, t: ObjId, i: Frame)
    requires Mirror(objects, s.store.links, s.refs) && t in objects
    ensures Mirror(objects[t := objects[t].(start := i)], s.store.links, s.refs)
  {
    forall o | o in objects ensures MirrorsOne(objects[t := objects[t].(start := i)][o], s.store.links[o], s.refs[o]) {
      MirrorAt(objects, s.store.links, s.refs, o);
    }
  }

  // A page found by lookup is in memory.
  lemma FoundContents(m: M.Mem, memory: seq<Page>, objects: Objects, s: State, others: set<nat>, o: ObjId, n: nat)
    requires Coupled(m, memory, objects, s.store.pages, s.store.mem, others) && Ranked(s.store.links)
    requires o in s.store.links
    requires Find(s.store.links, s.store.pages, o, n).Some?
    ensures var f := Find(s.store.links, s.store.pages, o, n).value;
      f < |memory| && memory[f] == Contents(s.store.mem, f) && !FreshFrame(s.store.pages, f)
  {
    hide FramesDistinct, NoStray, Threaded, Ranked;
    var x := FindWitness(s.store.links, s.store.pages, o, n);
    ObjectAt(m, memory, objects, s.store.pages, s.store.mem, x);
  }

  lemma ListsChanged(lists: Lists, regions: Regions, pid: nat, i: nat, r: VmRegion)
    requires ListsOk(lists, regions) && i < |ListOf(lists, pid)| && Aligned(r)
    requires r.startAddr == ListOf(lists, pid)[i].startAddr
    ensures ListsOk(lists[pid := ListOf(lists, pid)[i := r]], regions[KeyOf(pid, r) := RegionOf(r)])
  {
    hide ListOk, Aligned;
    var lists', regions' := lists[pid := ListOf(lists, pid)[i := r]], regions[KeyOf(pid, r) := RegionOf(r)];
    forall q: nat ensures ListOk(q, ListOf(lists', q), regions') {
      assert ListOk(q, ListOf(lists, q), regions);
      if q == pid { ChangedRegion(pid, ListOf(lists, pid), regions, i, r); }
      else { OtherList(q, ListOf(lists, q), regions, regions'); }
    }
  }

  // A new shadow of o, used by one region.
  lemma ShadowMirror(objects: Objects, links: Links, refs: map<ObjId, Refs>, t: ObjId, o: ObjId, clock: nat)
    requires Mirror(objects, links, refs)
    ensures Mirror(objects[t := VmObject(Shadow, o, 1, 0, 0, None, 0)], links[t := Link(Shadow, o, 0, clock)],
                   refs[t := Refs(1, 0, 0)])
  {
    forall x | x in objects && x != t ensures MirrorsOne(objects[x], links[x], refs[x]) {
      MirrorAt(objects, links, refs, x);
    }
  }

  lemma ListedAt(lists: Lists, regions: Regions, pid: nat, i: nat)
    requires ListsOk(lists, regions) && i < |ListOf(lists, pid)|
    ensures var r := ListOf(lists, pid)[i];
      Aligned(r) && KeyOf(pid, r) in regions && regions[KeyOf(pid, r)] == RegionOf(r)
  {
    assert ListOk(pid, ListOf(lists, pid), regions) && Listed(pid, ListOf(lists, pid)[i], regions);
  }

  lemma MirrorKeys(objects: Objects, links: Links, refs: map<ObjId, Refs>)
    requires Mirror(objects, links, refs)
    ensures objects.Keys == links.Keys && refs.Keys == links.Keys
  {}

  // Only the start of an object's chain matters to the heap.
  lemma StartKept(m: M.Mem, memory: seq<Page>, objects: Objects, pages: Pages, mem: map<Frame, Page>, others: set<nat>,
                  o: ObjId, r: VmObject)
    requires Coupled(m, memory, objects, pages, mem, others) && o in objects && r.start == objects[o].start
    ensures Coupled(m, memory, objects[o := r], pages, mem, others)
  {
    hide FramesDistinct, M.BlockAt, Held;
    forall x | x in objects[o := r]
      ensures M.BlockAt(m, x) == Some(OBJECT_BLOCK) && Held(m, memory, objects[o := r][x].start, ChainOf(pages, x), mem)
    {
      ObjectAt(m, memory, objects, pages, mem, x);
    }
  }

  lemma AlignedSource(r: VmRegion, t: ObjId)
    requires Aligned(r)
    ensures Aligned(r.(source := t)) && Aligned(r.(source := t, cow := true))
  {}

  lemma KeptEmpty(first: nat, last: nat)
    ensures Kept([], first, last) == []
  {}

  lemma CoupledKeys(m: M.Mem, memory: seq<Page>, objects: Objects, pages: Pages, mem: map<Frame, Page>,
                    others: set<nat>)
    requires Coupled(m, memory, objects, pages, mem, others)
    ensures pages.Keys <= objects.Keys && |memory| == |m|
  {}

  // Empty chains may as well be in the map.
  lemma Normalised(m: M.Mem, memory: seq<Page>, objects: Objects, pages: Pages, mem: map<Frame, Page>, others: set<nat>,
                   o1: ObjId, o2: ObjId)
    requires Coupled(m, memory, objects, pages, mem, others) && o1 in objects && o2 in objects && o1 != o2
    ensures Coupled(m, memory, objects, pages[o1 := ChainOf(pages, o1)][o2 := ChainOf(pages, o2)], mem, others)
  {
    hide M.BlockAt, Held, FramesDistinct, Frames;
    var pages' := pages[o1 := ChainOf(pages, o1)][o2 := ChainOf(pages, o2)];
    forall o | o in objects
      ensures M.BlockAt(m, o) == Some(OBJECT_BLOCK) && Held(m, memory, objects[o].start, ChainOf(pages', o), mem)
    {
      ObjectAt(m, memory, objects, pages, mem, o);
      assert ChainOf(pages', o) == ChainOf(pages, o);
    }
    NormalDistinct(pages, pages');
    forall f | OnSomeChain(pages, f) ensures OnSomeChain(pages', f) {
      var o :| o in pages && f in Frames(pages[o]);
      assert o in pages' && f in Frames(pages'[o]);
    }
  }

  lemma NormalDistinct(pages: Pages, pages': Pages)
    requires FramesDistinct(pages)
    requires forall o :: o in pages' ==> pages'[o] == ChainOf(pages, o)
    ensures FramesDistinct(pages')
  {}

  lemma Descending(links: Links, sub: ObjId, top: ObjId)
    requires Ranked(links) && sub in links && top in links && links[top].next == sub && links[sub].next in links
    ensures sub != top && links[sub].next != sub && links[sub].next != top
  {
    assert links[links[top].next].birth < links[top].birth;
    assert links[sub].next != 0 ==> links[links[sub].next].birth < links[sub].birth;
  }

  lemma SameStarts(m: M.Mem, memory: seq<Page>, objects: Objects, objects': Objects, pages: Pages,
                   mem: map<Frame, Page>, others: set<nat>)
    requires Coupled(m, memory, objects, pages, mem, others) && objects'.Keys == objects.Keys
    requires forall o :: o in objects ==> objects'[o].start == objects[o].start
    ensures Coupled(m, memory, objects', pages, mem, others)
  {
    hide FramesDistinct, M.BlockAt, Held;
    forall o | o in objects'
      ensures M.BlockAt(m, o) == Some(OBJECT_BLOCK) && Held(m, memory, objects'[o].start, ChainOf(pages, o), mem)
    {
      ObjectAt(m, memory, objects, pages, mem, o);
    }
  }

  lemma ObjectHead(m: M.Mem, o: ObjId)
    requires M.BlockAt(m, o) == Some(OBJECT_BLOCK)
    ensures Malloc.HeadOf(m, o) == o
  {}

  // r as vm_object_combine leaves it.
  function Patched(r: VmObject, o: ObjId, y: ObjId, sub: ObjId, top: ObjId): VmObject {
    if o == top then r.(next := y)
    else if o == y then
      r.(ref1 := if r.ref1 == sub then top else r.ref1, ref2 := if r.ref2 == sub then top else r.ref2)
    else r
  }

  lemma CombineMirror(objects: Objects, objects': Objects, s: State, sub: ObjId, top: ObjId)
    requires Mirror(objects, s.store.links, s.refs) && sub in objects && top in objects && sub != top
    requires s.store.links[sub].next in s.refs
    requires s.store.links[sub].next != top && s.store.links[sub].next != sub
    requires objects'.Keys == objects.Keys - {sub}
    requires forall o :: o in objects' ==>
               objects'[o] == Patched(objects[o], o, objects[sub].next, sub, top).(start := objects'[o].start)
    ensures Mirror(objects', Combine(s, sub, top).store.links, Combine(s, sub, top).refs)
  {
    hide Combine, MirrorsOne, Patched;
    var s' := Combine(s, sub, top);
    MirrorAt(objects, s.store.links, s.refs, sub);
    MirrorKeys(objects, s.store.links, s.refs);
    CombineKeys(s, sub, top);
    forall o | o in objects' ensures MirrorsOne(objects'[o], s'.store.links[o], s'.refs[o]) {
      MirrorAt(objects, s.store.links, s.refs, o);
      PatchedMirrors(objects[o], s.store.links[o], s.refs[o], o, s.store.links[sub].next, sub, top, objects'[o].start);
      CombineAt(s, sub, top, o);
      assert objects[sub].next == s.store.links[sub].next by {
        SameNext(objects[sub], s.store.links[sub], s.refs[sub]);
      }
    }
  }

  lemma SameNext(r: VmObject, l: Link, c: Refs)
    requires MirrorsOne(r, l, c)
    ensures r.next == l.next
  {}

  lemma CombineKeys(s: State, sub: ObjId, top: ObjId)
    requires sub in s.store.links && top in s.store.links && s.store.links[sub].next in s.refs && sub != top
    requires s.refs.Keys == s.store.links.Keys
    ensures var s' := Combine(s, sub, top);
      s'.store.links.Keys == s.store.links.Keys - {sub} && s'.refs.Keys == s.refs.Keys - {sub}
  {
    hide CombinedPages;
    assert Combine(s, sub, top).store.links.Keys == s.store.links.Keys - {sub};
    assert Combine(s, sub, top).refs.Keys == s.refs.Keys - {sub};
  }

  // What combining leaves of one object.
  function CombinedLink(l: Link, o: ObjId, y: ObjId, top: ObjId): Link { if o == top then l.(next := y) else l }

  function CombinedRefs(c: Refs, o: ObjId, y: ObjId, sub: ObjId, top: ObjId): Refs {
    if o == y then c.(ref1 := if c.ref1 == sub then top else c.ref1, ref2 := if c.ref2 == sub then top else c.ref2)
       else c
  }

  lemma CombineAt(s: State, sub: ObjId, top: ObjId, o: ObjId)
    requires sub in s.store.links && top in s.store.links && s.store.links[sub].next in s.refs && sub != top
    requires o in s.store.links && o in s.refs && o != sub
    ensures
      var s', y := Combine(s, sub, top), s.store.links[sub].next;
      && o in s'.store.links && s'.store.links[o] == CombinedLink(s.store.links[o], o, y, top)
      && o in s'.refs && s'.refs[o] == CombinedRefs(s.refs[o], o, y, sub, top)
  {
    hide CombinedPages;
  }

  lemma PatchedMirrors(r: VmObject, l: Link, c: Refs, o: ObjId, y: ObjId, sub: ObjId, top: ObjId, start: nat)
    requires MirrorsOne(r, l, c) && y != top
    ensures MirrorsOne(Patched(r, o, y, sub, top).(start := start), CombinedLink(l, o, y, top),
                       CombinedRefs(c, o, y, sub, top))
  {}

  // After the page loop, and the change of what referred to subobj.
  lemma PatchedStarts(before: Objects, mid: Objects, after: Objects, objs: Objects, sub: ObjId, top: ObjId)
    requires OnlyStart(before, mid, top) && sub in mid && sub in before && sub in objs && sub != top
    requires objs == mid[sub := objs[sub]]
    requires after.Keys == mid.Keys
    requires forall o :: o in after && o in mid ==> after[o] == Patched(mid[o], o, mid[sub].next, sub, top)
    ensures objs.Keys == after.Keys == before.Keys
    ensures forall o :: o in after && o != sub ==> after[o].start == objs[o].start
    ensures forall o :: o in after && o != sub ==>
              after[o] == Patched(before[o], o, before[sub].next, sub, top).(start := after[o].start)
  {
    assert mid[sub] == before[sub];
    forall o | o in after && o != sub
      ensures after[o].start == objs[o].start
      ensures o in before && after[o] == Patched(before[o], o, before[sub].next, sub, top).(start := after[o].start)
    {
      assert o in mid.Keys;
    }
    assert mid.Keys == before.Keys && objs.Keys == mid.Keys;
  }

  lemma CombineHeap(m: M.Mem, memory: seq<Page>, objects: Objects, s: State, pages: Pages, others: set<nat>,
                    sub: ObjId, top: ObjId)
    requires sub in s.store.links && top in s.store.links && s.store.links[sub].next in s.refs && sub != top
    requires Coupled(m, memory, objects, pages - {sub}, s.store.mem, others)
    requires pages == s.store.pages[sub := []][top := Merge(ChainOf(s.store.pages, sub), ChainOf(s.store.pages, top))]
    ensures var s' := Combine(s, sub, top);
      Coupled(m, memory, objects, s'.store.pages, s'.store.mem, others)
  {
    hide Coupled, Merge;
    assert pages - {sub} == CombinedPages(s.store.pages, sub, top);
  }

  // The chains of sub and top, while pages move.
  function Both(base: Pages, sub: ObjId, subChain: seq<PageRef>, top: ObjId, topChain: seq<PageRef>): Pages {
    base[sub := subChain][top := topChain]
  }

  lemma BothAt(base: Pages, sub: ObjId, subChain: seq<PageRef>, top: ObjId, topChain: seq<PageRef>)
    requires sub != top
    ensures var pages := Both(base, sub, subChain, top, topChain);
      sub in pages && top in pages && pages[sub] == subChain && pages[top] == topChain
  {}

  lemma BothMoved(base: Pages, sub: ObjId, x: PageRef, rest: seq<PageRef>, top: ObjId, t: seq<PageRef>)
    requires sub != top
    ensures Pushed(Both(base, sub, [x] + rest, top, t)[sub := rest], top, x) == Both(base, sub, rest, top, [x] + t)
    ensures Both(base, sub, [x] + rest, top, t)[sub := rest] == Both(base, sub, rest, top, t)
  {}

  lemma MergeStep(x: PageRef, rest: seq<PageRef>, t: seq<PageRef>)
    ensures Merge([x] + rest, t) == if FindIn(t, x.nr).None? then Merge(rest, [x] + t) else Merge(rest, t)
  {
    assert ([x] + rest)[1..] == rest;
  }

  lemma MergedAll(base: Pages, sub: ObjId, top: ObjId, t: seq<PageRef>)
    ensures Merge([], t) == t && Both(base, sub, [], top, t) == base[sub := []][top := t]
  {}

  // vm_object_combine just before it frees subobj. `before` is the object table it started with.
  ghost predicate Merged(m: M.Mem, memory: seq<Page>, before: Objects, objects: Objects, objs: Objects, pages: Pages,
                         s: State, others: set<nat>, sub: ObjId, top: ObjId) {
    && M.WellFormed(m) && Coupled(m, memory, objs, pages, s.store.mem, others) && Mirror(before, s.store.links, s.refs)
    && sub in before && top in before && sub != top && objs.Keys == objects.Keys == before.Keys
    && s.store.links[sub].next in s.refs && s.store.links[sub].next != top && s.store.links[sub].next != sub
    && (forall o :: o in objects && o != sub ==> objects[o].start == objs[o].start)
    && (forall o :: o in objects && o != sub ==>
                      objects[o] == Patched(before[o], o, before[sub].next, sub, top).(start := objects[o].start))
    && pages == s.store.pages[sub := []][top := Merge(ChainOf(s.store.pages, sub), ChainOf(s.store.pages, top))]
  }

  lemma MergedFreed(m: M.Mem, memory: seq<Page>, before: Objects, objects: Objects, objs: Objects, pages: Pages,
                    s: State, others: set<nat>, sub: ObjId, top: ObjId)
    requires Merged(m, memory, before, objects, objs, pages, s, others, sub, top)
    ensures sub in s.store.links && top in s.store.links && s.store.links[sub].next in s.refs
    ensures M.BlockAt(m, sub) == Some(OBJECT_BLOCK) && sub / PAGESIZE + OBJECT_BLOCK / PAGESIZE <= |m|
    ensures var s' := Combine(s, sub, top);
      && M.FreeBytes(M.Freed(m, sub)) == M.FreeBytes(m) + OBJECT_BLOCK
      && Coupled(M.Freed(m, sub), memory, objects - {sub}, s'.store.pages, s'.store.mem, others)
      && Mirror(objects - {sub}, s'.store.links, s'.refs)
  {
    hide Merge, Coupled, Mirror, M.BlockAt, M.Freed, M.WellFormed, M.FreeBytes, MirrorsOne, Patched, Combine;
    var objs' := objects[sub := objs[sub]];
    MirrorKeys(before, s.store.links, s.refs);
    SameStarts(m, memory, objs, objs', pages, s.store.mem, others);
    ObjectFreed(m, memory, objs', pages, s.store.mem, others, sub);
    assert objs' - {sub} == objects - {sub};
    CombineHeap(M.Freed(m, sub), memory, objects - {sub}, s, pages, others, sub, top);
    CombineMirror(before, objects - {sub}, s, sub, top);
  }

  // Only where top's chain starts has changed.
  predicate OnlyStart(before: Objects, after: Objects, top: ObjId) {
    top in before && top in after && after == before[top := before[top].(start := after[top].start)]
  }

  lemma StartOnly(before: Objects, after: Objects, top: ObjId, o: ObjId)
    requires OnlyStart(before, after, top) && o in before && o != top
    ensures after.Keys == before.Keys && after[o] == before[o]
  {}

  lemma OnlyStartAgain(before: Objects, after: Objects, top: ObjId, i: nat)
    requires OnlyStart(before, after, top)
    ensures OnlyStart(before, after[top := after[top].(start := i)], top)
  {
    assert after[top := after[top].(start := i)] == before[top := before[top].(start := i)];
  }

  lemma RemoveMirror(objects: Objects, s: State, o: ObjId)
    requires Mirror(objects, s.store.links, s.refs) && o in objects
    ensures Mirror(objects - {o}, RemoveObject(s, o).store.links, RemoveObject(s, o).refs)
  {
    forall x | x in objects - {o} ensures MirrorsOne(objects[x], s.store.links[x], s.refs[x]) {
      MirrorAt(objects, s.store.links, s.refs, x);
    }
  }

  lemma CountMirror(objects: Objects, s: State, o: ObjId, count: int)
    requires Mirror(objects, s.store.links, s.refs) && o in objects && o in s.refs
    ensures Mirror(objects[o := objects[o].(refcount := count)], s.store.links, s.refs[o := s.refs[o].(count := count)])
  {
    forall x | x in objects ensures MirrorsOne(objects[x], s.store.links[x], s.refs[x]) {
      MirrorAt(objects, s.store.links, s.refs, x);
    }
  }

  // The state when vm_object_free has dealt with the object below.
  function ReleaseBelow(s: State, o: ObjId): Option<State>
    requires Ranked(s.store.links) && o in s.store.links && s.refs.Keys == s.store.links.Keys
  {
    var next := s.store.links[o].next;
    if next == 0 then Some(s)
    else if s.refs[next].count == 2 && s.store.links[next].kind == Shadow then
      var top := OtherRef(s.refs[next], o);
      if && top in s.store.links && s.store.links[top].next == next
         && s.store.links[top].kind == Shadow && s.store.links[next].next != 0
      then Some(Combine(s, next, top)) else None
    else Release(s, next)
  }

  function Counted(s: State, o: ObjId): State
    requires o in s.refs
  {
    s.(refs := s.refs[o := s.refs[o].(count := s.refs[o].count - 1)])
  }

  lemma CountedSame(s: State, o: ObjId)
    requires o in s.refs && s.refs.Keys == s.store.links.Keys
    ensures var s0 := Counted(s, o);
      s0.refs.Keys == s0.store.links.Keys && s0.store == s.store && s0.refs[o].count == s.refs[o].count - 1
  {}

  lemma ReleaseKept(s: State, o: ObjId)
    requires Ranked(s.store.links) && o in s.store.links && s.refs.Keys == s.store.links.Keys && s.refs[o].count > 1
    ensures Release(s, o) == Some(Counted(s, o))
  {}

  lemma ReleaseGone(s: State, o: ObjId)
    requires Ranked(s.store.links) && o in s.store.links && s.refs.Keys == s.store.links.Keys && s.refs[o].count <= 1
    ensures Counted(s, o).refs.Keys == Counted(s, o).store.links.Keys && Counted(s, o).store == s.store
    ensures
      var s1 := ReleaseBelow(Counted(s, o), o);
      Release(s, o) ==
        if s1.None? then None
        else if s.store.links[o].kind == File then s1
        else Some(RemoveObject(s1.value, o))
  {
    hide Combine, OtherRef;
    CountedSame(s, o);
  }

  lemma RemoveWithoutPages(s1: State, s2: State, o: ObjId)
    requires s2 == s1.(store := s1.store.(pages := s2.store.pages)) && s2.store.pages - {o} == s1.store.pages - {o}
    ensures RemoveObject(s2, o) == RemoveObject(s1, o)
  {}

  lemma RankedNext(links: Links, o: ObjId)
    requires Ranked(links) && o in links && links[o].next != 0
    ensures links[o].next in links && links[links[o].next].birth < links[o].birth
  {}

  // Objects above the one released stay.
  lemma {:induction false} ReleaseLeaves(s: State, o: ObjId, x: ObjId)
    requires Ranked(s.store.links) && o in s.store.links && s.refs.Keys == s.store.links.Keys
    requires x in s.store.links && s.store.links[x].birth > s.store.links[o].birth && Release(s, o).Some?
    ensures var s' := Release(s, o).value;
      x in s'.store.links && x in s'.refs && s'.store.links[x].kind == s.store.links[x].kind
    decreases s.store.links[o].birth
  {
    if s.refs[o].count > 1 {
      ReleaseKept(s, o);
    } else {
      ReleaseGone(s, o);
      BelowLeaves(Counted(s, o), o, x);
    }
  }

  lemma {:induction false} BelowLeaves(s: State, o: ObjId, x: ObjId)
    requires Ranked(s.store.links) && o in s.store.links && s.refs.Keys == s.store.links.Keys
    requires x in s.store.links && s.store.links[x].birth >= s.store.links[o].birth && ReleaseBelow(s, o).Some?
    ensures var s' := ReleaseBelow(s, o).value;
      x in s'.store.links && x in s'.refs && s'.store.links[x].kind == s.store.links[x].kind
    decreases s.store.links[o].birth, 0
  {
    var next := s.store.links[o].next;
    if next != 0 {
      assert s.store.links[s.store.links[o].next].birth < s.store.links[o].birth;
      if !(s.refs[next].count == 2 && s.store.links[next].kind == Shadow) { ReleaseLeaves(s, next, x); }
    }
  }

  // What the simple machine has at a page of a region.
  lemma CellOfRegion(s: State, a: Memory, k: RegKey, e: PageKey)
    requires Good(s, a) && Covers(s.regions, k, e)
    ensures Stepable(s) && s.regions[k].source in s.store.links && Ranked(s.store.links)
    ensures e in a && a[e] == CellOf(s.store, s.regions[k], e.vp)
    ensures s.regions[k].cow ==> s.regions[k].writable
  {
    hide Refines, Used, RefsOk, PtOk, FilesOk, Stepable;
    GoodIsStepable(s, a);
    CellAt(s.store, s.regions, a, k, e);
    IsRegionOk(s.store.links, s.regions, k);
  }

  lemma NoCell(s: State, a: Memory, e: PageKey)
    requires Good(s, a) && forall k: RegKey :: k.pid == e.pid ==> !Covers(s.regions, k, e)
    ensures e !in a
  {
    hide Inv, Used, Placed, CellOf;
  }

  lemma CellFlags(m: Store, r: Region, vp: nat)
    requires Ranked(m.links) && r.source in m.links && r.first <= vp
    ensures CellOf(m, r, vp).readable == r.readable && CellOf(m, r, vp).writable == r.writable
  {}

  // A mapped page is one that lookup finds. If the hardware trapped all the same, the write has to copy it.
  lemma MappedEntry(s: State, a: Memory, k: RegKey, e: PageKey, write: bool)
    requires Good(s, a) && Covers(s.regions, k, e) && e in s.pt ==> write && !s.pt[e].writable
    requires Good(s, a) && Covers(s.regions, k, e) && Ranked(s.store.links) && s.regions[k].source in s.store.links
    ensures e in s.pt ==>
              && (s.regions[k].writable ==> s.regions[k].cow)
              && Find(s.store.links, s.store.pages, s.regions[k].source, PageNr(s.regions[k], e.vp)).Some?
  {
    hide Refines, Used, RefsOk, FilesOk, RegionsOk, StoreOk;
    if e in s.pt { EntryOf(s, k, e); }
  }

  lemma FaultIsPageIn(s: State, k: RegKey, vp: nat, write: bool, f: Frame, t: ObjId)
    requires Ranked(s.store.links) && Covers(s.regions, k, PageKey(k.pid, vp)) && s.regions[k].source in s.store.links
    requires Find(s.store.links, s.store.pages, s.regions[k].source, PageNr(s.regions[k], vp)).None?
    requires if write then s.regions[k].writable else s.regions[k].readable
    ensures Fault(s, k, vp, write, f, t) == PageIn(s, k, vp, f)
    ensures CellOf(s.store, s.regions[k], vp).content.Some? <==> PageIn(s, k, vp, f).Done?
    ensures PageIn(s, k, vp, f).Done? ==> PageKey(k.pid, vp) in PageIn(s, k, vp, f).s.pt
    ensures PageIn(s, k, vp, f).PageinFailed? <==> PageIn(s, k, vp, 0).PageinFailed?
  {
    hide Find, Bottom, Initial, Pushed;
  }

  lemma FaultIsCopy(s: State, k: RegKey, vp: nat, f: Frame, t: ObjId, found: Frame)
    requires Ranked(s.store.links) && Covers(s.regions, k, PageKey(k.pid, vp)) && s.regions[k].source in s.store.links
    requires Find(s.store.links, s.store.pages, s.regions[k].source, PageNr(s.regions[k], vp)) == Some(found)
    requires s.regions[k].writable && s.regions[k].cow
    ensures
      var r, e := s.regions[k], PageKey(k.pid, vp);
      var s' := MapEntry(CopyPage(s, k, PageNr(r, vp), f, t, Contents(s.store.mem, found)), e, f, true);
      && Fault(s, k, vp, true, f, t) == Done(s') && CellOf(s.store, r, vp).content.Some?
      && s'.pt == s.pt[e := Pte(f, true)] && s'.store.files == s.store.files && s'.vmobj == s.vmobj
  {
    hide Find, Pushed;
  }

  lemma FaultMaps(s: State, a: Memory, k: RegKey, vp: nat, found: Frame)
    requires Good(s, a) && Covers(s.regions, k, PageKey(k.pid, vp))
    requires Ranked(s.store.links) && s.regions[k].source in s.store.links
    requires Find(s.store.links, s.store.pages, s.regions[k].source, PageNr(s.regions[k], vp)) == Some(found)
    ensures CellOf(s.store, s.regions[k], vp).content.Some?
    ensures Good(MapEntry(s, PageKey(k.pid, vp), found, s.regions[k].writable && !s.regions[k].cow), a)
  {
    hide RefsOk, RegionsOk, PtOk, FilesOk, FramesDistinct, Backed, Refines, Find, EntryOk, Ranked;
    IsRegionOk(s.store.links, s.regions, k);
    MapFoundKeeps(s, k, vp);
  }

  // ---------------------------------------------------------------- attaching and detaching regions

  lemma ListsAdded(lists: Lists, regions: Regions, pid: nat, r: VmRegion)
    requires ListsOk(lists, regions) && Aligned(r) && KeyOf(pid, r) !in regions
    ensures ListsOk(lists[pid := [r] + ListOf(lists, pid)], regions[KeyOf(pid, r) := RegionOf(r)])
  {
    hide ListOk, Aligned;
    var lists', regions' := lists[pid := [r] + ListOf(lists, pid)], regions[KeyOf(pid, r) := RegionOf(r)];
    forall q: nat ensures ListOk(q, ListOf(lists', q), regions') {
      assert ListOk(q, ListOf(lists, q), regions);
      if q == pid { AddedRegion(pid, ListOf(lists, pid), regions, r); }
      else { OtherList(q, ListOf(lists, q), regions, regions'); }
    }
  }

  lemma ListsRemoved(lists: Lists, regions: Regions, pid: nat, i: nat)
    requires ListsOk(lists, regions) && i < |ListOf(lists, pid)|
    ensures var list := ListOf(lists, pid);
      ListsOk(lists[pid := list[..i] + list[i + 1..]], regions - {KeyOf(pid, list[i])})
  {
    hide ListOk;
    var list := ListOf(lists, pid);
    var lists', regions' := lists[pid := list[..i] + list[i + 1..]], regions - {KeyOf(pid, list[i])};
    forall q: nat ensures ListOk(q, ListOf(lists', q), regions') {
      assert ListOk(q, ListOf(lists, q), regions);
      if q == pid { RemovedRegion(pid, list, regions, i); }
      else { OtherList(q, ListOf(lists, q), regions, regions'); }
    }
  }

  // Addresses of r are outside every region of the list.
  predicate FreeOf(list: seq<VmRegion>, r: VmRegion) {
    forall i :: 0 <= i < |list| ==> list[i].endAddr < r.startAddr || r.endAddr < list[i].startAddr
  }

  lemma FreeOfIsFreePlace(lists: Lists, regions: Regions, pid: nat, r: VmRegion)
    requires ListsOk(lists, regions) && Aligned(r) && FreeOf(ListOf(lists, pid), r)
    ensures FreePlace(regions, pid, RegionOf(r)) && KeyOf(pid, r) !in regions
  {
    var list := ListOf(lists, pid);
    assert ListOk(pid, list, regions);
    PageOfAddress(r, r.startAddr);
    forall k: RegKey | k in regions && k.pid == pid ensures Apart(regions[k], RegionOf(r)) && k != KeyOf(pid, r) {
      assert InList(list, k.first);
      var i :| 0 <= i < |list| && list[i].startAddr / PAGESIZE == k.first;
      assert Listed(pid, list[i], regions);
      ApartPages(list[i], r);
    }
  }

  lemma ApartPages(r1: VmRegion, r2: VmRegion)
    requires Aligned(r1) && Aligned(r2) && (r1.endAddr < r2.startAddr || r2.endAddr < r1.startAddr)
    ensures Apart(RegionOf(r1), RegionOf(r2)) && RegionOf(r1).first <= RegionOf(r1).last
    ensures RegionOf(r1).first != RegionOf(r2).first
  {
    PageOfAddress(r1, r1.endAddr);
    PageOfAddress(r2, r2.endAddr);
  }

  lemma CreateMirror(objects: Objects, s: State, o: ObjId, kind: Kind, vnode: nat)
    requires Mirror(objects, s.store.links, s.refs) && kind != Shadow
    ensures Mirror(objects[o := VmObject(kind, 0, 0, 0, 0, if kind == File then Some(vnode) else None, 0)],
                   CreateObject(s, o, kind, vnode).store.links, CreateObject(s, o, kind, vnode).refs)
  {
    forall x | x in objects && x != o ensures MirrorsOne(objects[x], s.store.links[x], s.refs[x]) {
      MirrorAt(objects, s.store.links, s.refs, x);
    }
  }

  lemma NewPlace(lists: Lists, regions: Regions, pid: nat, r: VmRegion, o: ObjId)
    requires ListsOk(lists, regions) && Aligned(r) && FreeOf(ListOf(lists, pid), r)
    ensures Aligned(r.(source := o)) && KeyOf(pid, r.(source := o)) !in regions
    ensures FreePlace(regions, pid, RegionOf(r.(source := o)))
  {
    hide Aligned, ListsOk, FreePlace;
    AlignedSource(r, o);
    FreeOfIsFreePlace(lists, regions, pid, r.(source := o));
  }

  lemma CellsIgnoreSource(files: map<FilePage, Page>, pid: nat, r: VmRegion, o: ObjId, kind: Kind, vnode: nat)
    requires Aligned(r)
    ensures MappedCells(files, pid, RegionOf(r.(source := o)), kind, vnode)
            == MappedCells(files, pid, RegionOf(r), kind, vnode)
  {}

  // No entry of the process is in the range of r.
  lemma NothingUnmapped(pt: PageTables, pid: nat, r: VmRegion)
    requires Aligned(r)
    requires forall e :: e in pt && e.pid == pid ==> !(r.startAddr <= e.vp * PAGESIZE <= r.endAddr)
    ensures Unmapped(pt, pid, RegionOf(r).first, RegionOf(r).last) == pt
  {
    forall e | e in pt && e.pid == pid ensures !(RegionOf(r).first <= e.vp <= RegionOf(r).last) {
      PageOfAddress(r, e.vp * PAGESIZE);
    }
  }

  // The object o of a vnode: there already, or new.
  ghost predicate FileObjectMade(s0: State, s: State, vnode: nat, o: ObjId) {
    if vnode in s0.vmobj then o == s0.vmobj[vnode] && s == s0
    else
      && o !in s0.store.links && o != 0
      && s == CreateObject(s0, o, File, vnode).(vmobj := s0.vmobj[vnode := o])
  }

  // The region at place i, which started at startAddr, is gone from the list, and its pages from memory.
  ghost predicate DetachedAt(lists: Lists, a: Memory, pid: nat, i: nat, startAddr: nat, lists': Lists, a': Memory) {
    var list := ListOf(lists, pid);
    && i < |list| && list[i].startAddr == startAddr
    && lists' == lists[pid := list[..i] + list[i + 1..]]
    && SameOutside(a, a', pid, list[i].startAddr, list[i].endAddr)
    && NothingInside(a', pid, list[i].startAddr, list[i].endAddr)
  }

  // ---------------------------------------------------------------- exit

  lemma DropGood(s: State, a: Memory, pid: nat)
    requires Good(s, a)
    ensures Good(DropProcess(s, pid), a)
  {
    hide Inv, Refines;
    DropProcessKeeps(s, pid);
    SameObjectsUsed(s, DropProcess(s, pid));
  }

  predicate FewerCells(a: Memory, a': Memory, pid: nat) {
    && (forall e :: e in a' ==> e in a && a'[e] == a[e])
    && (forall e :: e in a && e.pid != pid ==> e in a')
  }

  lemma DetachedCells(a0: Memory, lists: Lists, a: Memory, pid: nat, i: nat, startAddr: nat, lists': Lists, a': Memory)
    requires FewerCells(a0, a, pid) && DetachedAt(lists, a, pid, i, startAddr, lists', a')
    ensures FewerCells(a0, a', pid) && |ListOf(lists', pid)| < |ListOf(lists, pid)|
    ensures forall q :: q != pid ==> ListOf(lists', q) == ListOf(lists, q)
  {}

  lemma NoRegionsNoCells(lists: Lists, s: State, a: Memory, pid: nat)
    requires ListsOk(lists, s.regions) && ListOf(lists, pid) == [] && Good(s, a)
    ensures forall e :: e in a ==> e.pid != pid
  {
    hide Good;
    assert ListOk(pid, [], s.regions);
    forall e | e in a ensures e.pid != pid {
      if e.pid == pid {
        forall k: RegKey | k.pid == pid ensures !Covers(s.regions, k, e) {
          assert k in s.regions ==> InList([], k.first);
        }
        NoCell(s, a, e);
      }
    }
  }

  lemma WithoutAll(a0: Memory, a: Memory, pid: nat)
    requires FewerCells(a0, a, pid) && forall e :: e in a ==> e.pid != pid
    ensures a == WithoutProcess(a0, pid)
  {}

  // ---------------------------------------------------------------- fork

  // The object table after two shadows t1 and t2 of o have been made.
  function ForkedObjects(objects: Objects, o: ObjId, t1: ObjId, t2: ObjId): Objects
    requires o in objects
  {
    var shadow := VmObject(Shadow, o, 1, 0, 0, None, 0);
    var r := objects[o].(refcount := objects[o].refcount + 1);
    objects[t1 := shadow][t2 := shadow][o := if r.kind == Shadow then r.(ref1 := t1, ref2 := t2) else r]
  }

  lemma ForkMirror(objects: Objects, s: State, k: RegKey, child: nat, t1: ObjId, t2: ObjId)
    requires Mirror(objects, s.store.links, s.refs) && k in s.regions && s.regions[k].source in s.store.links
    requires s.regions[k].writable && t1 !in objects && t2 !in objects
    requires s.regions[k].source in objects && s.regions[k].source in s.refs
    ensures var s' := ForkRegion(s, k, child, t1, t2);
      Mirror(ForkedObjects(objects, s.regions[k].source, t1, t2), s'.store.links, s'.refs)
      && s'.store.pages == s.store.pages && s'.store.mem == s.store.mem
  {
    var o := s.regions[k].source;
    var s', objects' := ForkRegion(s, k, child, t1, t2), ForkedObjects(objects, o, t1, t2);
    forall x | x in objects' ensures MirrorsOne(objects'[x], s'.store.links[x], s'.refs[x]) {
      if x in objects { MirrorAt(objects, s.store.links, s.refs, x); }
    }
  }

  lemma ForkLists(lists: Lists, regions: Regions, parent: nat, i: nat, child: nat, t1: ObjId, t2: ObjId)
    requires ListsOk(lists, regions) && i < |ListOf(lists, parent)| && parent != child
    requires KeyOf(child, ListOf(lists, parent)[i]) !in regions
    ensures var list := ListOf(lists, parent);
      var r1, r2 := list[i].(source := t1, cow := true), list[i].(source := t2, cow := true);
      ListsOk(lists[parent := list[i := r1]][child := [r2] + ListOf(lists, child)],
              regions[KeyOf(parent, list[i]) := RegionOf(r1)][KeyOf(child, list[i]) := RegionOf(r2)])
  {
    hide ListsOk, Aligned;
    var list := ListOf(lists, parent);
    var r1, r2 := list[i].(source := t1, cow := true), list[i].(source := t2, cow := true);
    ListedAt(lists, regions, parent, i);
    AlignedSource(list[i], t1);
    AlignedSource(list[i], t2);
    ListsChanged(lists, regions, parent, i, r1);
    ListsAdded(lists[parent := list[i := r1]], regions[KeyOf(parent, list[i]) := RegionOf(r1)], child, r2);
  }

  // Addresses that are no object's.
  lemma Unused(links: Links) returns (t1: ObjId, t2: ObjId)
    ensures t1 !in links && t2 !in links && t1 != t2 && t1 != 0 && t2 != 0
  {
    var n := UpperBound(links.Keys);
    t1, t2 := n + 1, n + 2;
    assert t1 in links ==> t1 in links.Keys;
    assert t2 in links ==> t2 in links.Keys;
  }

  // Pages of the first i regions of a list.
  function FirstPages(list: seq<VmRegion>, i: nat): set<nat>
    requires i <= |list|
  {
    if i == 0 then {} else FirstPages(list, i - 1) + {list[i - 1].startAddr / PAGESIZE}
  }

  lemma {:induction false} InFirstPages(list: seq<VmRegion>, i: nat, x: nat)
    requires i <= |list|
    ensures x in FirstPages(list, i) <==> exists j :: 0 <= j < i && list[j].startAddr / PAGESIZE == x
  {
    if i > 0 { InFirstPages(list, i - 1, x); }
  }

  lemma NextPage(lists: Lists, regions: Regions, pid: nat, i: nat)
    requires ListsOk(lists, regions) && i < |ListOf(lists, pid)|
    ensures var list := ListOf(lists, pid);
      KeyOf(pid, list[i]) in regions && list[i].startAddr / PAGESIZE !in FirstPages(list, i)
  {
    var list := ListOf(lists, pid);
    assert ListOk(pid, list, regions) && Listed(pid, list[i], regions);
    InFirstPages(list, i, list[i].startAddr / PAGESIZE);
    forall j | 0 <= j < i ensures list[j].startAddr / PAGESIZE != list[i].startAddr / PAGESIZE {
      SameKeyIndex(pid, list, regions, i, j);
    }
  }

  lemma AllPages(lists: Lists, regions: Regions, pid: nat, k: RegKey)
    requires ListsOk(lists, regions) && k in regions && k.pid == pid
    ensures k.first in FirstPages(ListOf(lists, pid), |ListOf(lists, pid)|)
  {
    var list := ListOf(lists, pid);
    assert ListOk(pid, list, regions) && InList(list, k.first);
    InFirstPages(list, |list|, k.first);
  }

  // The same places, with the same rights.
  predicate SameOutline(list: seq<VmRegion>, list': seq<VmRegion>) {
    && |list| == |list'|
    && forall j :: 0 <= j < |list| ==> list[j].startAddr == list'[j].startAddr && list[j].writable == list'[j].writable
  }

  lemma ForkedParts(s: State, k: RegKey, child: nat, t1: ObjId, t2: ObjId)
    requires k in s.regions && s.regions[k].source in s.store.links && s.regions[k].source in s.refs
    requires s.regions[k].writable
    ensures var s', r := ForkRegion(s, k, child, t1, t2), s.regions[k];
      && s'.regions
         == s.regions[k := r.(source := t1, cow := true)][RegKey(child, r.first) := r.(source := t2, cow := true)]
      && s'.pt == WriteProtected(s.pt, k.pid, r.first, r.last)
  {}

  lemma ForkedStarts(m: M.Mem, memory: seq<Page>, before: Objects, made: Objects, pages: Pages, mem: map<Frame, Page>,
                     others: set<nat>, o: ObjId, t1: ObjId, t2: ObjId)
    requires o in before && t1 !in before && t2 !in before && t1 != t2
    requires made == before[t1 := VmObject(Shadow, 0, 0, 0, 0, None, 0)][t2 := VmObject(Shadow, 0, 0, 0, 0, None, 0)]
    requires Coupled(m, memory, made, pages, mem, others)
    ensures Coupled(m, memory, ForkedObjects(before, o, t1, t2), pages, mem, others)
  {
    hide Coupled;
    SameStarts(m, memory, made, ForkedObjects(before, o, t1, t2), pages, mem, others);
  }

  lemma FirstPagesStep(list: seq<VmRegion>, i: nat)
    requires i < |list|
    ensures FirstPages(list, 0) == {} && FirstPages(list, i + 1) == FirstPages(list, i) + {list[i].startAddr / PAGESIZE}
  {}

  lemma SameOutlineTransitive(l1: seq<VmRegion>, l2: seq<VmRegion>, l3: seq<VmRegion>)
    requires SameOutline(l1, l2) && SameOutline(l2, l3)
    ensures SameOutline(l1, l3)
  {}

  lemma StartFork(lists: Lists, s: State, a: Memory, parent: nat, child: nat)
    requires ListsOk(lists, s.regions) && Good(s, a) && parent != child && ListOf(lists, child) == []
    requires forall e :: e in s.pt ==> e.pid != child
    ensures Inv(s) && Used(s) && Forking(s, parent, child, FirstPages(ListOf(lists, parent), 0), s)
  {
    hide Forking, Inv, Used, Refines;
    assert ListOk(child, [], s.regions);
    forall k | k in s.regions ensures k.pid != child { assert k.pid == child ==> InList([], k.first); }
    ForkStarts(s, parent, child);
    assert FirstPages(ListOf(lists, parent), 0) == {};
  }

  // What a round of fork needs to know about the region it is at.
  lemma ForkReady(lists: Lists, s0: State, s: State, parent: nat, child: nat, done: set<nat>, i: nat, x: nat)
    requires ListsOk(lists, s.regions) && Inv(s) && Forking(s0, parent, child, done, s)
    requires i < |ListOf(lists, parent)| && x == ListOf(lists, parent)[i].startAddr / PAGESIZE
    requires x !in done && RegKey(parent, x) in s0.regions
    ensures ListOf(lists, parent)[i].source in s.store.links && KeyOf(child, ListOf(lists, parent)[i]) !in s.regions
  {
    hide ForkedUpTo, ListsOk, RegionsApart, Inv;
    InvPlaced(s);
    ListedAt(lists, s.regions, parent, i);
    ForkApart(s0, parent, child, done, s, x);
  }

  lemma ForkOther(s: State, k: RegKey, child: nat, t1: ObjId, t2: ObjId)
    requires k in s.regions && s.regions[k].source in s.store.links && s.regions[k].source in s.refs
    ensures var s' := ForkRegion(s, k, child, t1, t2); s'.vmobj == s.vmobj && s'.pt.Keys == s.pt.Keys
  {}

  lemma EndFork(lists: Lists, s0: State, a: Memory, parent: nat, child: nat, done: set<nat>, s: State)
    requires ListsOk(lists, s0.regions) && Good(s0, a) && parent != child
    requires Inv(s) && Used(s) && Forking(s0, parent, child, done, s)
    requires done == FirstPages(ListOf(lists, parent), |ListOf(lists, parent)|)
    ensures Good(s, a + CopiedCells(a, parent, child)) && s.store.files == s0.store.files
    ensures forall k :: k in s.regions && k.pid == parent ==> !InPlace(s.regions[k])
  {
    hide ListsOk, Inv, Used, Refines, ForkedUpTo, CopiedCells, RegionsApart, FirstPages, InPlaceBut, NotInPlace;
    InvPlaced(s);
    ForkFirsts(s0);
    forall k | k in s0.regions && k.pid == parent ensures k.first in done { AllPages(lists, s0.regions, parent, k); }
    ForkRefines(s0, parent, child, done, s, a);
    ForkEnds(s0, parent, child, done, s);
    NoneInPlace(s0, parent, child, done, s);
  }

  lemma NoneInPlace(s0: State, parent: nat, child: nat, done: set<nat>, s: State)
    requires Forking(s0, parent, child, done, s) && forall k :: k in s0.regions && k.pid == parent ==> k.first in done
    ensures forall k :: k in s.regions && k.pid == parent ==> !InPlace(s.regions[k])
  {
    hide InPlace, InPlaceBut, RegionsApart, SameRegion;
    forall k | k in s.regions && k.pid == parent ensures !InPlace(s.regions[k]) { assert k in s0.regions; }
  }

  lemma ForkFirsts(s: State)
    requires Inv(s)
    ensures forall k :: k in s.regions ==> k.first == s.regions[k].first
  {
    hide RefsOk, PtOk, FilesOk, StoreOk, Aged;
    forall k | k in s.regions ensures k.first == s.regions[k].first { IsRegionOk(s.store.links, s.regions, k); }
  }

  lemma ForkShares(s: State, k: RegKey, child: nat, t1: ObjId, t2: ObjId)
    requires k in s.regions && s.regions[k].source in s.store.links && s.regions[k].source in s.refs
    requires !s.regions[k].writable
    ensures ForkRegion(s, k, child, t1, t2) == AttachRegion(s, RegKey(child, s.regions[k].first), s.regions[k])
  {}

  // ---------------------------------------------------------------- access through page tables

  lemma WrittenPage(m: M.Mem, memory: seq<Page>, objects: Objects, pages: Pages, mem: map<Frame, Page>,
                    others: set<nat>, f: Frame, c: Page)
    requires Coupled(m, memory, objects, pages, mem, others) && f < |memory|
    ensures Coupled(m, memory[f := c], objects, pages, mem[f := c], others)
  {
    hide FramesDistinct, M.BlockAt, NoStray;
    forall o | o in objects
      ensures M.BlockAt(m, o) == Some(OBJECT_BLOCK)
      ensures Held(m, memory[f := c], objects[o].start, ChainOf(pages, o), mem[f := c])
    {
      ObjectAt(m, memory, objects, pages, mem, o);
    }
  }

  // What a store does.
  predicate ByteStored(a: Memory, e: PageKey, off: nat, b: Byte, a': Memory) {
    && e in a && a[e].content.Some? && off < PAGESIZE
    && a' == a[e := a[e].(content := Some(a[e].content.value[off := b]))]
  }

  // Some region covers a mapped page, and its chain gives the frame of the entry.
  lemma MappedRegion(s: State, a: Memory, e: PageKey) returns (k: RegKey)
    requires Good(s, a) && e in s.pt
    ensures Covers(s.regions, k, e) && Ranked(s.store.links) && s.regions[k].source in s.store.links
    ensures Find(s.store.links, s.store.pages, s.regions[k].source, PageNr(s.regions[k], e.vp)) == Some(s.pt[e].frame)
    ensures e in a && a[e].content == Some(Contents(s.store.mem, s.pt[e].frame))
  {
    hide Refines, Used, RefsOk, FilesOk, RegionsOk, StoreOk;
    k :| Covers(s.regions, k, e);
    EntryOf(s, k, e);
    CellOfRegion(s, a, k, e);
  }

  // ---------------------------------------------------------------- what processes see, address by address

  // The address shows the page of the file that its offset is in; nothing, if the file has no such page.
  predicate FileAt(a: Memory, files: map<FilePage, Page>, pid: nat, r: VmRegion, vnode: nat, va: nat)
    requires r.startAddr <= va
  {
    var e, key := PageKey(pid, va / PAGESIZE), FilePage(vnode, (va - r.startAddr + r.srcOffset) / PAGESIZE);
    e in a && a[e] == Cell(if key in files then Some(files[key]) else None, r.readable, r.writable)
  }

  predicate ZeroAt(a: Memory, pid: nat, r: VmRegion, va: nat) {
    var e := PageKey(pid, va / PAGESIZE);
    && e in a && a[e].content.Some? && a[e].content.value[va % PAGESIZE] == 0
    && a[e].readable == r.readable && a[e].writable == r.writable
  }

  ghost predicate ShowsFile(a: Memory, files: map<FilePage, Page>, pid: nat, r: VmRegion, vnode: nat) {
    forall va: nat :: r.startAddr <= va <= r.endAddr ==> FileAt(a, files, pid, r, vnode, va)
  }

  ghost predicate ShowsZeroes(a: Memory, pid: nat, r: VmRegion) {
    forall va: nat :: r.startAddr <= va <= r.endAddr ==> ZeroAt(a, pid, r, va)
  }

  // Outside the range a page of the process, and every page of the others, is as it was.
  ghost predicate SameOutside(a: Memory, a': Memory, pid: nat, startAddr: nat, endAddr: nat) {
    forall e: PageKey {:trigger e in a'} {:trigger e in a} ::
      !(e.pid == pid && startAddr < (e.vp + 1) * PAGESIZE && e.vp * PAGESIZE <= endAddr) ==>
        (e in a' <==> e in a) && (e in a ==> a'[e] == a[e])
  }

  // Inside it there is none.
  ghost predicate NothingInside(a: Memory, pid: nat, startAddr: nat, endAddr: nat) {
    forall e: PageKey {:trigger e in a} ::
      e.pid == pid && startAddr < (e.vp + 1) * PAGESIZE && e.vp * PAGESIZE <= endAddr ==> e !in a
  }

  // The child has the parent's pages, one by one, with the same rights; all other pages are as they were.
  ghost predicate HasCopy(a: Memory, a': Memory, parent: nat, child: nat) {
    && (forall vp: nat {:trigger PageKey(child, vp)} ::
          && (PageKey(child, vp) in a' <==> PageKey(parent, vp) in a)
          && (PageKey(parent, vp) in a ==> a'[PageKey(child, vp)] == a[PageKey(parent, vp)]))
    && (forall e: PageKey {:trigger e in a'} {:trigger e in a} :: e.pid != child ==>
          (e in a' <==> e in a) && (e in a ==> a'[e] == a[e]))
  }

  // The region is first in the process' list, with an object of its own or that of the file.
  ghost predicate Attached(lists: Lists, lists': Lists, pid: nat, r: VmRegion) {
    exists o: ObjId {:trigger r.(source := o)} :: lists' == lists[pid := [r.(source := o)] + ListOf(lists, pid)]
  }

  lemma NowAttached(lists: Lists, lists': Lists, pid: nat, r: VmRegion, o: ObjId)
    requires lists' == lists[pid := [r.(source := o)] + ListOf(lists, pid)]
    ensures Attached(lists, lists', pid, r)
  {}

  // Page by page: what a mapping adds.
  lemma MappedPage(files: map<FilePage, Page>, pid: nat, r: Region, kind: Kind, vnode: nat, vp: nat)
    requires r.first <= vp <= r.last
    ensures
      var cells, e, key := MappedCells(files, pid, r, kind, vnode), PageKey(pid, vp),
                           FilePage(vnode, vp - r.first + r.srcPage);
      && e in cells && cells[e].readable == r.readable && cells[e].writable == r.writable
      && if kind == File then cells[e].content == if key in files then Some(files[key]) else None
         else cells[e].content.Some? && forall i :: 0 <= i < PAGESIZE ==> cells[e].content.value[i] == 0
  {}

  lemma MappedOutside(files: map<FilePage, Page>, a: Memory, pid: nat, r: VmRegion, kind: Kind, vnode: nat)
    requires Aligned(r)
    ensures SameOutside(a, a + MappedCells(files, pid, RegionOf(r), kind, vnode), pid, r.startAddr, r.endAddr)
  {
    hide Aligned;
    var cells := MappedCells(files, pid, RegionOf(r), kind, vnode);
    forall e | e in cells ensures e.pid == pid && r.startAddr < (e.vp + 1) * PAGESIZE && e.vp * PAGESIZE <= r.endAddr {
      PageTouches(r, e.vp);
    }
  }

  lemma PageTouches(r: VmRegion, vp: nat)
    requires Aligned(r)
    ensures RegionOf(r).first <= vp <= RegionOf(r).last <==>
            r.startAddr < (vp + 1) * PAGESIZE && vp * PAGESIZE <= r.endAddr
    ensures r.startAddr <= vp * PAGESIZE <= r.endAddr <==> RegionOf(r).first <= vp <= RegionOf(r).last
  {
    PageOfAddress(r, vp * PAGESIZE);
    var s, e := r.startAddr / PAGESIZE, (r.endAddr + 1) / PAGESIZE;
    assert r.startAddr == s * PAGESIZE && r.endAddr + 1 == e * PAGESIZE && r.endAddr / PAGESIZE == e - 1;
  }

  lemma MappedFileShows(files: map<FilePage, Page>, a: Memory, pid: nat, r: VmRegion, vnode: nat)
    requires Aligned(r)
    ensures ShowsFile(a + MappedCells(files, pid, RegionOf(r), File, vnode), files, pid, r, vnode)
  {
    hide Aligned, MappedCells;
    forall va: nat | r.startAddr <= va <= r.endAddr
      ensures FileAt(a + MappedCells(files, pid, RegionOf(r), File, vnode), files, pid, r, vnode, va)
    {
      PageOfAddress(r, va);
      MappedPage(files, pid, RegionOf(r), File, vnode, va / PAGESIZE);
    }
  }

  lemma MappedZeroesShow(files: map<FilePage, Page>, a: Memory, pid: nat, r: VmRegion)
    requires Aligned(r)
    ensures ShowsZeroes(a + MappedCells(files, pid, RegionOf(r), Anonymous, 0), pid, r)
  {
    hide Aligned, MappedCells;
    forall va: nat | r.startAddr <= va <= r.endAddr
      ensures ZeroAt(a + MappedCells(files, pid, RegionOf(r), Anonymous, 0), pid, r, va)
    {
      PageOfAddress(r, va);
      MappedPage(files, pid, RegionOf(r), Anonymous, 0, va / PAGESIZE);
    }
  }

  lemma WithoutRegion(a: Memory, pid: nat, r: VmRegion)
    requires Aligned(r)
    ensures
      var a' := WithoutRange(a, pid, RegionOf(r).first, RegionOf(r).last);
      SameOutside(a, a', pid, r.startAddr, r.endAddr) && NothingInside(a', pid, r.startAddr, r.endAddr)
  {
    WithoutShows(a, pid, r.startAddr, r.endAddr);
  }

  // The range as it is asked for, and in whole pages.
  lemma WholePages(a: Memory, a': Memory, pid: nat, startAddr: nat, endAddr: nat, last: nat)
    requires startAddr % PAGESIZE == 0 && last / PAGESIZE == endAddr / PAGESIZE
    requires SameOutside(a, a', pid, startAddr, endAddr) && NothingInside(a', pid, startAddr, endAddr)
    ensures SameOutside(a, a', pid, startAddr, last) && NothingInside(a', pid, startAddr, last)
  {
    forall vp: nat ensures vp * PAGESIZE <= endAddr <==> vp * PAGESIZE <= last { SamePage(vp, endAddr, last); }
  }

  lemma SamePage(vp: nat, x: nat, y: nat)
    requires x / PAGESIZE == y / PAGESIZE
    ensures vp * PAGESIZE <= x <==> vp * PAGESIZE <= y
  {}

  lemma CopiedShows(a: Memory, parent: nat, child: nat)
    requires parent != child && forall e :: e in a ==> e.pid != child
    ensures HasCopy(a, a + CopiedCells(a, parent, child), parent, child)
  {
    hide CopiedCells;
    CopiedIs(a, parent, child);
  }

  lemma WithoutShows(a: Memory, pid: nat, startAddr: nat, endAddr: nat)
    requires startAddr % PAGESIZE == 0 && (endAddr + 1) % PAGESIZE == 0
    ensures
      var a' := WithoutRange(a, pid, startAddr / PAGESIZE, endAddr / PAGESIZE);
      SameOutside(a, a', pid, startAddr, endAddr) && NothingInside(a', pid, startAddr, endAddr)
  {
    var s, e := startAddr / PAGESIZE, (endAddr + 1) / PAGESIZE;
    assert startAddr == s * PAGESIZE && endAddr + 1 == e * PAGESIZE && endAddr / PAGESIZE == e - 1;
  }

  // ---------------------------------------------------------------- when no process has regions

  lemma NoRegions(lists: Lists, s: State)
    requires ListsOk(lists, s.regions) && forall pid: nat :: ListOf(lists, pid) == []
    ensures s.regions == map[]
  {
    forall k: RegKey ensures k !in s.regions { assert ListOk(k.pid, ListOf(lists, k.pid), s.regions); }
  }

  lemma OnlyFileObjects(lists: Lists, s: State, a: Memory, o: ObjId)
    requires ListsOk(lists, s.regions) && (forall pid: nat :: ListOf(lists, pid) == []) && Good(s, a)
    requires o in s.store.links
    ensures s.store.links[o].kind == File
  {
    hide Inv, Refines, Used, ListOk, ListOf;
    NoRegions(lists, s);
    OnlyFilesLeft(s, o);
  }
}
