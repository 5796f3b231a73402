/** The virtual memory system as the kernel runs it: objects in memory from malloc, page chains threaded through the
    MCB array, region lists. Each operation does to the memory that processes see what the simple machine does. */
module VmKernel {
  import opened Basics
  import opened VmObjects
  import opened VmModel
  import opened VmInvariants
  import opened VmRefinement
  import opened VmDetach
  import opened VmThreads
  import opened VmLists
  import opened VmSteps
  import opened VmRuns
  import opened VmTheorems
  import opened VmCut
  import opened VmUnmap
  import M = Mcbs
  import Malloc
  import A = AddressSpace
  import P = Pmap

  // How vm_fault ends. The panics stop the kernel.
  datatype Trap = Resolved | Sigsegv | PanicNoRegions | PanicPagein | OutOfMemory

  // Outcome of vm_fault, in terms of what the process is allowed and sees at page e.
  predicate TrapIs(noRegions: bool, a: Memory, e: PageKey, write: bool, out: Trap) {
    var known := e in a;
    var allowed := known && if write then a[e].writable else a[e].readable;
    match out
    case PanicNoRegions => noRegions
    case Sigsegv => !noRegions && !allowed
    case Resolved => allowed && a[e].content.Some?
    case PanicPagein => allowed && a[e].content.None?
    case OutOfMemory => allowed
  }

  datatype PageinResult = Got(f: Frame) | TooShort | NoMemoryLeft

  class Kernel {
    const heap: Malloc.Allocator
    const files: map<FilePage, Page>
    const kernel: nat              // where userland starts, in units of 4 MB
    var memory: seq<Page>          // the pages the MCB array describes
    var objects: Objects           // the vm_object at each address
    var lists: Lists               // each process' vmregions
    var pageTable: PageTables
    var vmobj: map<nat, ObjId>     // the vm_object of each vnode that has one
    var kernelWhole: bool          // the kernel's own pages, mapped for every process, are present and writable:
                                   // if not, the kernel does not get to run any more
    ghost var s: State
    ghost var a: Memory            // what every process sees
    ghost var others: set<nat>     // blocks that other parts of the kernel hold

    ghost predicate HeapOk()
      reads this`memory, this`objects, this`s, this`others, heap, heap.mcb, heap.searchPos
    {
      heap.Valid() && Coupled(heap.mcb[..], memory, objects, s.store.pages, s.store.mem, others)
    }

    ghost predicate Coupling()
      reads this`memory, this`objects, this`s, this`others, heap, heap.mcb, heap.searchPos
    {
      HeapOk() && Mirror(objects, s.store.links, s.refs)
    }

    ghost predicate Valid()
      reads this, heap, heap.mcb, heap.searchPos
    {
      && Coupling() && ListsOk(lists, s.regions)
      && pageTable == s.pt && vmobj == s.vmobj && s.store.files == files
      && 0 < kernel < P.ENTRIES && P.InUserland(pageTable, kernel)
      && Good(s, a)
    }

    // No process has memory yet. The blocks of the heap that are live already are somebody else's.
    constructor (heap: Malloc.Allocator, memory: seq<Page>, files: map<FilePage, Page>, kernel: nat)
      requires heap.Valid() && |memory| == heap.mcb.Length && 0 < kernel < P.ENTRIES
      ensures Valid() && a == NoMemory && this.heap == heap && this.files == files && lists == map[] && kernelWhole
    {
      this.heap, this.memory, this.files, this.kernel, kernelWhole := heap, memory, files, kernel, true;
      objects, lists, pageTable, vmobj := map[], map[], map[], map[];
      s, a := Start(files), NoMemory;
      ghost var m := heap.mcb[..];
      others := set p: nat | p < |m| * PAGESIZE && M.BlockAt(m, p).Some?;
      StartGood(files);
    }

    // ---------------------------------------------------------------- walking the chains

    // One object's page chain, by first match. 0 if there is no such page.
    method FindInChain(start: nat, nr: nat, ghost chain: seq<PageRef>) returns (found: nat)
      requires Threaded(heap.mcb[..], start, chain)
      ensures FindIn(chain, nr) == if found == 0 then None else Some(found)
    {
      found := 0;
      var i: nat := start;
      ghost var rest := chain;
      ghost var m := heap.mcb[..];
      while i != 0
        invariant found == 0 ==> Threaded(m, i, rest) && FindIn(chain, nr) == FindIn(rest, nr)
        invariant found != 0 ==> i == 0 && FindIn(chain, nr) == Some(found)
        decreases |rest|, i
      {
        if heap.mcb[i].size == M.VMOBJECT_PAGE {
          if heap.mcb[i].pageNr == nr {
            found := i;
            i := 0;
          } else {
            i := heap.mcb[i].next;
            rest := rest[1..];
          }
        } else {
          assert false;   // "non-vm_object mcbs in vm_object page chain"
        }
      }
    }

    method FindPage(o: ObjId, nr: nat) returns (found: nat)
      requires Coupling() && Ranked(s.store.links) && o in s.store.links
      ensures Find(s.store.links, s.store.pages, o, nr) == if found == 0 then None else Some(found)
    {
      found := 0;
      var obj := o;
      while obj != 0
        invariant obj != 0 ==> found == 0 && obj in objects
                               && Find(s.store.links, s.store.pages, o, nr) ==
                                  Find(s.store.links, s.store.pages, obj, nr)
        invariant obj == 0 ==> Find(s.store.links, s.store.pages, o, nr) == if found == 0 then None else Some(found)
        decreases if obj == 0 then 0 else s.store.links[obj].birth + 1
      {
        assert MirrorsOne(objects[obj], s.store.links[obj], s.refs[obj]);
        ObjectAt(heap.mcb[..], memory, objects, s.store.pages, s.store.mem, obj);
        found := FindInChain(objects[obj].start, nr, ChainOf(s.store.pages, obj));
        obj := if found != 0 then 0 else objects[obj].next;
      }
    }

    method LastObject(o: ObjId) returns (b: ObjId)
      requires Coupling() && Ranked(s.store.links) && o in s.store.links
      ensures b == Bottom(s.store.links, o)
    {
      b := o;
      while objects[b].next != 0
        invariant b in objects && Bottom(s.store.links, o) == Bottom(s.store.links, b)
        decreases s.store.links[b].birth
      {
        assert MirrorsOne(objects[b], s.store.links[b], s.refs[b]);
        b := objects[b].next;
      }
      assert MirrorsOne(objects[b], s.store.links[b], s.refs[b]);
    }

    // ---------------------------------------------------------------- pages

    // A page from malloc, on no chain yet.
    method NewFrame() returns (i: Option<Frame>)
      requires Coupling()
      modifies this`others, heap, heap.mcb, heap.searchPos
      ensures Coupling()
      ensures i.Some? <==> old(heap.CanServe(PAGESIZE))
      ensures i.None? ==> others == old(others)
      ensures i.Some? ==>
                && others == old(others) + {i.value * PAGESIZE} && i.value * PAGESIZE !in objects
                && 0 < i.value < heap.mcb.Length && heap.mcb[i.value].size == PAGESIZE
                && FreshFrame(s.store.pages, i.value)
    {
      hide M.WellFormed, M.FreeBytes, M.BlockAt, M.Freed, M.Allocated, M.CanAlloc, Coupled, Mirror, FreshFrame,
           Malloc.InReach;
      var p := heap.Malloc(PAGESIZE);
      if p.None? { return None; }
      ghost var m := old(heap.mcb[..]);
      MallocedPage(m, memory, objects, s.store.pages, s.store.mem, others, p.value);
      NewPage(m, p.value);
      others := others + {p.value};
      i := Some(p.value / PAGESIZE);
    }

    method SetMemory(i: Frame, c: Page)
      requires Coupling() && i < heap.mcb.Length && heap.mcb[i].size == PAGESIZE && FreshFrame(s.store.pages, i)
      modifies this`memory
      ensures Coupling() && i < |memory| == |old(memory)| && memory == old(memory)[i := c] && memory[i] == c
    {
      hide M.WellFormed, M.FreeBytes, M.BlockAt, Mirror, FreshFrame;
      ghost var m := heap.mcb[..];
      MarkedPage(m, memory, objects, s.store.pages, s.store.mem, others, i, m[i], c);
      assert m[i := m[i]] == m;
      assert |memory| == |m|;
      memory := memory[i := c];
    }

    // Frees a page that is on no chain.
    method FreeFrame(i: Frame)
      requires Coupling() && i < heap.mcb.Length && FreshFrame(s.store.pages, i)
      requires heap.mcb[i].size == PAGESIZE || heap.mcb[i].size == M.VMOBJECT_PAGE
      modifies this`others, heap`totalFree, heap.mcb
      ensures Coupling() && others == old(others) - {i * PAGESIZE}
      ensures heap.mcb[..] == old(heap.mcb[..])[i := old(heap.mcb[i]).(size := M.FREE, bitmap := {})]
    {
      hide M.WellFormed, M.FreeBytes, M.BlockAt, M.Freed, Mirror, FreshFrame, Coupled;
      ghost var m, rest := heap.mcb[..], others - {i * PAGESIZE};
      LoosePageFreed(m, memory, objects, s.store.pages, s.store.mem, rest, i) by {
        MoreOthers(m, memory, objects, s.store.pages, s.store.mem, others, rest + {i * PAGESIZE});
      }
      PageHead(m, i);
      var ok := heap.Free(i * PAGESIZE);
      assert ok;
      others := rest;
    }

    // The pagein functions: vm_anonymous_pagein, and vnode_pagein for a file object.
    method Pagein(b: ObjId, nr: nat) returns (r: PageinResult)
      requires Coupling() && b in s.store.links && s.store.files == files
      modifies this`others, this`memory, heap, heap.mcb, heap.searchPos
      ensures Coupling() && (r == NoMemoryLeft <==> !old(heap.CanServe(PAGESIZE)))
      ensures var c := Initial(files, s.store.links[b], nr);
        match r
        case Got(f) =>
          && c.Some? && others == old(others) + {f * PAGESIZE} && 0 < f < heap.mcb.Length && memory[f] == c.value
          && heap.mcb[f].size == PAGESIZE && FreshFrame(s.store.pages, f) && f * PAGESIZE !in objects
        case TooShort => c.None? && others <= old(others)
        case NoMemoryLeft => others <= old(others)
      ensures
        var l := s.store.links[b];
        var key := FilePage(l.vnode, nr);
        match r
        case Got(f) =>
          if l.kind == File then key in files && memory[f] == files[key]
          else forall i :: 0 <= i < PAGESIZE ==> memory[f][i] == 0
        case TooShort => l.kind == File && key !in files
        case NoMemoryLeft => true
    {
      hide Coupled, FreshFrame, Ranked;
      assert MirrorsOne(objects[b], s.store.links[b], s.refs[b]);
      var i := NewFrame();
      if i.None? { return NoMemoryLeft; }
      if objects[b].kind == File {
        var key := FilePage(objects[b].vnode.value, nr);
        if key !in files {
          FreeFrame(i.value);
          return TooShort;
        }
        SetMemory(i.value, files[key]);
      } else {
        SetMemory(i.value, ZeroPage);
      }
      return Got(i.value);
    }

    // Page i becomes page nr of object t, first on its chain.
    method LinkFrame(i: Frame, nr: nat, t: ObjId)
      requires Coupling() && 0 < i < heap.mcb.Length && FreshFrame(s.store.pages, i) && t in objects
      requires (heap.mcb[i].size == PAGESIZE || heap.mcb[i].size == M.VMOBJECT_PAGE) && nr <= MAX_PAGE_NR
      modifies this`others, this`objects, this`s, heap.mcb
      ensures Coupling() && others == old(others) - {i * PAGESIZE} && i < |memory|
      ensures s == old(s).(store := PushPage(old(s.store), t, nr, i, memory[i]))
      ensures objects == old(objects)[t := old(objects)[t].(start := i)]
    {
      hide M.WellFormed, M.FreeBytes, M.BlockAt, FreshFrame, Pushed, Coupled, Mirror;
      ghost var m, rest := heap.mcb[..], others - {i * PAGESIZE};
      MoreOthers(m, memory, objects, s.store.pages, s.store.mem, others, rest + {i * PAGESIZE});
      LinkedPage(m, memory, objects, s.store.pages, s.store.mem, rest, i, nr, t);
      MemorySize(m, memory, objects, s.store.pages, s.store.mem, others);
      assert Mirror(objects[t := objects[t].(start := i)], s.store.links, s.refs) by { SameMirror(objects, s, t, i); }
      heap.mcb[i] := M.Mcb(M.VMOBJECT_PAGE, {}, nr, objects[t].start);
      objects := objects[t := objects[t].(start := i)];
      others := rest;
      s := s.(store := PushPage(s.store, t, nr, i, memory[i]));
      assert heap.mcb[..] == m[i := heap.mcb[i]];
    }

    lemma ObjectMirrors(o: ObjId)
      requires Coupling() && o in s.store.links
      ensures o in objects && o in s.refs && MirrorsOne(objects[o], s.store.links[o], s.refs[o])
    {
      MirrorAt(objects, s.store.links, s.refs, o);
    }

    // pmap_mappage
    method MapPage(pid: nat, va: nat, f: Frame, writable: bool)
      requires Coupling() && pageTable == s.pt
      modifies this`pageTable, this`s
      ensures Coupling() && pageTable == s.pt && s == MapEntry(old(s), PageKey(pid, va / PAGESIZE), f, writable)
      ensures pageTable == old(pageTable)[PageKey(pid, va / PAGESIZE) := Pte(f, writable)]
    {
      pageTable := pageTable[PageKey(pid, va / PAGESIZE) := Pte(f, writable)];
      s := MapEntry(s, PageKey(pid, va / PAGESIZE), f, writable);
    }

    // Case A: no object has the page.
    method FaultPageIn(pid: nat, r: VmRegion, va: nat, nr: nat) returns (out: Trap, ghost f: Frame)
      requires Coupling() && Ranked(s.store.links) && pageTable == s.pt && s.store.files == files
      requires Covers(s.regions, KeyOf(pid, r), PageKey(pid, va / PAGESIZE)) && s.regions[KeyOf(pid, r)] == RegionOf(r)
      requires r.source in s.store.links && nr == PageNr(RegionOf(r), va / PAGESIZE) && nr <= MAX_PAGE_NR
      modifies this`others, this`memory, this`objects, this`pageTable, this`s, heap, heap.mcb, heap.searchPos
      ensures out in {Resolved, PanicPagein, OutOfMemory} && (out == OutOfMemory <==> !old(heap.CanServe(PAGESIZE)))
      ensures Coupling() && pageTable == s.pt && others <= old(others) && s.regions == old(s.regions)
      ensures
        var k, vp := KeyOf(pid, r), va / PAGESIZE;
        if out == Resolved then
          && FreshFrame(old(s.store.pages), f) && f * PAGESIZE !in old(s.store.links) && f > 0
          && PageIn(old(s), k, vp, f) == Done(s)
          && pageTable == old(pageTable)[PageKey(pid, vp) := Pte(f, r.writable && !r.cow)]
        else s == old(s) && (out == PanicPagein ==> PageIn(s, k, vp, 0) == PageinFailed)
    {
      hide Ranked, FreshFrame, Coupling, Initial, Bottom;
      var b := LastObject(r.source);
      ObjectMirrors(b);
      ObjectMirrors(r.source);
      f := 0;
      var page := Pagein(b, nr);
      if page == NoMemoryLeft { return OutOfMemory, 0; }
      if page == TooShort { return PanicPagein, 0; }
      if page.f * PAGESIZE in s.store.links { ObjectMirrors(page.f * PAGESIZE); }
      var target := if objects[b].kind == Anonymous then r.source else b;
      LinkFrame(page.f, nr, target);
      MapPage(pid, va, page.f, r.writable && !r.cow);
      return Resolved, page.f;
    }

    // vm_object_create. The caller links the object to others.
    method ObjectCreate(kind: Kind) returns (t: Option<ObjId>)
      requires HeapOk()
      modifies this`objects, heap, heap.mcb, heap.searchPos
      ensures HeapOk()
      ensures (t.Some? <==> old(heap.CanServe(SIZEOF_OBJECT))) && (t.None? ==> !heap.CanServe(SIZEOF_OBJECT))
      ensures t.None? ==> objects == old(objects)
      ensures forall f :: 0 <= f < heap.mcb.Length && old(heap.mcb[f].size) == PAGESIZE ==>
                heap.mcb[f] == old(heap.mcb[f])
      ensures t.Some? ==> t.value !in old(objects) && t.value != 0
                          && objects == old(objects)[t.value := VmObject(kind, 0, 0, 0, 0, None, 0)]
    {
      hide M.WellFormed, M.FreeBytes, M.BlockAt, M.Freed, M.Allocated, M.CanAlloc, Coupled, Malloc.InReach;
      ghost var m := heap.mcb[..];
      t := heap.Malloc(SIZEOF_OBJECT);
      if t.None? { return; }
      var r := VmObject(kind, 0, 0, 0, 0, None, 0);
      MallocedObject(m, memory, objects, s.store.pages, s.store.mem, others, t.value, r);
      forall f | 0 <= f < |m| && m[f].size == PAGESIZE ensures heap.mcb[f] == m[f] {
        AllocLeavesPages(m, t.value, OBJECT_BLOCK, f);
        assert heap.mcb[..][f] == m[f];
      }
      objects := objects[t.value := r];
    }

    // A shadow of the source of a region, used instead of it.
    method InsertShadow(pid: nat, i: nat) returns (t: Option<ObjId>)
      requires Coupling() && ListsOk(lists, s.regions) && i < |ListOf(lists, pid)|
      requires ListOf(lists, pid)[i].source in s.store.links
      modifies this`objects, this`lists, this`s, heap, heap.mcb, heap.searchPos
      ensures t.Some? ==>
                var r := ListOf(old(lists), pid)[i];
                var k := KeyOf(pid, r);
                && Coupling() && ListsOk(lists, s.regions) && t.value !in old(s.store.links) && t.value != 0
                && k in old(s.regions) && old(s.regions)[k] == RegionOf(r)
                && s == old(s).(store := NewObject(old(s.store), t.value, Link(Shadow, r.source, 0, old(s.clock))),
                                refs := old(s.refs)[t.value := Refs(1, 0, 0)],
                                regions := old(s.regions)[k := RegionOf(r).(source := t.value)],
                                clock := old(s.clock) + 1)
      ensures t.None? ==> s == old(s) && !heap.CanServe(SIZEOF_OBJECT)
      ensures forall f :: 0 <= f < heap.mcb.Length && old(heap.mcb[f].size) == PAGESIZE ==>
                heap.mcb[f] == old(heap.mcb[f])
    {
      hide Coupled, Mirror, ListsOk, Aligned;
      var list := ListOf(lists, pid);
      var r := list[i];
      var k := KeyOf(pid, r);
      t := ObjectCreate(Shadow);
      if t.None? { return; }
      ListedAt(lists, s.regions, pid, i);
      MirrorKeys(old(objects), s.store.links, s.refs);
      assert Mirror(objects[t.value := VmObject(Shadow, r.source, 1, 0, 0, None, 0)],
                    s.store.links[t.value := Link(Shadow, r.source, 0, s.clock)],
                    s.refs[t.value := Refs(1, 0, 0)]) by {
        ShadowMirror(old(objects), s.store.links, s.refs, t.value, r.source, s.clock);
        assert objects[t.value := VmObject(Shadow, r.source, 1, 0, 0, None, 0)]
            == old(objects)[t.value := VmObject(Shadow, r.source, 1, 0, 0, None, 0)];
      }
      AlignedSource(r, t.value);
      ListsChanged(lists, s.regions, pid, i, r.(source := t.value));
      StartKept(heap.mcb[..], memory, objects, s.store.pages, s.store.mem, others, t.value,
                VmObject(Shadow, r.source, 1, 0, 0, None, 0));
      objects := objects[t.value := objects[t.value].(next := r.source, refcount := 1)];
      lists := lists[pid := list[i := r.(source := t.value)]];
      s := s.(store := NewObject(s.store, t.value, Link(Shadow, r.source, 0, s.clock)),
              refs := s.refs[t.value := Refs(1, 0, 0)],
              regions := s.regions[k := RegionOf(r).(source := t.value)], clock := s.clock + 1);
    }

    lemma PageInMemory(o: ObjId, n: nat)
      requires Coupling() && Ranked(s.store.links) && o in s.store.links
      requires Find(s.store.links, s.store.pages, o, n).Some?
      ensures var f := Find(s.store.links, s.store.pages, o, n).value;
        f < |memory| && memory[f] == Contents(s.store.mem, f) && !FreshFrame(s.store.pages, f)
    {
      FoundContents(heap.mcb[..], memory, objects, s, others, o, n);
    }

    // Case B: a write to a page that is copied first. The copy goes on the region's own shadow, made if need be.
    method FaultCopy(pid: nat, i: nat, va: nat, nr: nat, found: Frame)
      returns (out: Trap, ghost f: Frame, ghost t: ObjId)
      requires Coupling() && ListsOk(lists, s.regions) && Ranked(s.store.links) && pageTable == s.pt
      requires i < |ListOf(lists, pid)| && ListOf(lists, pid)[i].source in s.store.links && nr <= MAX_PAGE_NR
      requires Find(s.store.links, s.store.pages, ListOf(lists, pid)[i].source, nr) == Some(found)
      modifies this`others, this`memory, this`objects, this`lists, this`pageTable, this`s,
               heap, heap.mcb, heap.searchPos
      ensures out in {Resolved, OutOfMemory}
      ensures out == OutOfMemory ==> !old(heap.CanServe(PAGESIZE)) || !heap.CanServe(SIZEOF_OBJECT)
      ensures out == Resolved ==>
                var r := ListOf(old(lists), pid)[i];
                var k := KeyOf(pid, r);
                && Coupling() && ListsOk(lists, s.regions) && pageTable == s.pt && others <= old(others)
                && FreshFrame(old(s.store.pages), f) && t !in old(s.store.links) && t != 0
                && k in old(s.regions) && old(s.regions)[k] == RegionOf(r)
                && s == MapEntry(CopyPage(old(s), k, nr, f, t, Contents(old(s.store.mem), found)),
                                 PageKey(pid, va / PAGESIZE), f, r.writable)
                && pageTable == old(pageTable)[PageKey(pid, va / PAGESIZE) := Pte(f, r.writable)]
    {
      hide Ranked, FreshFrame, Coupling, ListsOk, Pushed, Find, Contents;
      var r := ListOf(lists, pid)[i];
      ListedAt(lists, s.regions, pid, i);
      PageInMemory(r.source, nr);
      var page := NewFrame();
      if page.None? { return OutOfMemory, 0, 0; }
      SetMemory(page.value, memory[found]);
      var ok;
      ok, t := LinkCopy(pid, i, nr, page.value);
      if !ok { return OutOfMemory, 0, 0; }
      hide CopyPage;
      MapPage(pid, va, page.value, r.writable);
      return Resolved, page.value, t;
    }

    // The copy goes on the chain of the region's own shadow.
    method LinkCopy(pid: nat, i: nat, nr: nat, f: Frame) returns (ok: bool, ghost t: ObjId)
      requires Coupling() && ListsOk(lists, s.regions) && i < |ListOf(lists, pid)|
      requires ListOf(lists, pid)[i].source in s.store.links && nr <= MAX_PAGE_NR
      requires 0 < f < heap.mcb.Length && heap.mcb[f].size == PAGESIZE && FreshFrame(s.store.pages, f)
      requires f < |memory| && f * PAGESIZE !in objects
      modifies this`others, this`objects, this`lists, this`s, heap, heap.mcb, heap.searchPos
      ensures !ok ==> !heap.CanServe(SIZEOF_OBJECT)
      ensures ok ==>
                var k := KeyOf(pid, ListOf(old(lists), pid)[i]);
                && Coupling() && ListsOk(lists, s.regions) && others == old(others) - {f * PAGESIZE}
                && t !in old(s.store.links) && t != 0 && k in old(s.regions)
                && old(s.regions)[k].source in old(s.store.links)
                && s == CopyPage(old(s), k, nr, f, t, memory[f])
    {
      hide Ranked, FreshFrame, HeapOk, Mirror, ListsOk, Pushed, Find, Contents;
      var r := ListOf(lists, pid)[i];
      ListedAt(lists, s.regions, pid, i);
      ObjectMirrors(r.source);
      if objects[r.source].kind != Shadow {
        var shadow := InsertShadow(pid, i);
        if shadow.None? { return false, 0; }
        ObjectMirrors(shadow.value);
        LinkFrame(f, nr, shadow.value);
        t := shadow.value;
      } else {
        t := f * PAGESIZE;   // no object is created
        if t in s.store.links { ObjectMirrors(t); }
        LinkFrame(f, nr, r.source);
      }
      ok := true;
    }

    // The first region that contains an address.
    method FindRegion(pid: nat, va: nat) returns (i: Option<nat>)
      requires ListsOk(lists, s.regions)
      ensures i.None? ==> forall k: RegKey :: k.pid == pid ==> !Covers(s.regions, k, PageKey(pid, va / PAGESIZE))
      ensures i.Some? ==>
                && i.value < |ListOf(lists, pid)|
                && var r := ListOf(lists, pid)[i.value];
                   && r.startAddr <= va <= r.endAddr && Aligned(r)
                   && Covers(s.regions, KeyOf(pid, r), PageKey(pid, va / PAGESIZE))
                   && s.regions[KeyOf(pid, r)] == RegionOf(r)
    {
      hide ListOk, Aligned, Covers;
      var list := ListOf(lists, pid);
      assert ListOk(pid, list, s.regions);
      for n := 0 to |list|
        invariant forall j :: 0 <= j < n ==> !(list[j].startAddr <= va <= list[j].endAddr)
      {
        if va >= list[n].startAddr && va <= list[n].endAddr {
          CoverIsListed(pid, list, s.regions, va, n);
          return Some(n);
        }
      }
      forall k: RegKey | k.pid == pid ensures !Covers(s.regions, k, PageKey(pid, va / PAGESIZE)) {
        NoCover(pid, list, s.regions, va, k);
      }
      return None;
    }

    // The state after a fault is the one the model gives, so processes see what they did.
    lemma FaultRefines(s0: State, pid: nat, r: VmRegion, va: nat, write: bool, f: Frame, t: ObjId)
      requires Good(s0, a) && Covers(s0.regions, KeyOf(pid, r), PageKey(pid, va / PAGESIZE))
      requires FreshFrame(s0.store.pages, f) && t !in s0.store.links && t != 0
      requires PageKey(pid, va / PAGESIZE) in s0.pt ==> write && !s0.pt[PageKey(pid, va / PAGESIZE)].writable
      requires Ranked(s0.store.links) && s0.regions[KeyOf(pid, r)].source in s0.store.links
      requires Fault(s0, KeyOf(pid, r), va / PAGESIZE, write, f, t) == Done(s)
      requires P.InUserland(s0.pt, kernel) && P.UserAddress(kernel, va)
      ensures Good(s, a) && s.store.files == s0.store.files && P.InUserland(s.pt, kernel)
      ensures PageKey(pid, va / PAGESIZE) in s.pt && s.vmobj == s0.vmobj
    {
      hide Good, Fault;
      FaultAddsEntry(s0, KeyOf(pid, r), va / PAGESIZE, write, f, t);
      FaultDone(s0, a, KeyOf(pid, r), va / PAGESIZE, write, f, t);
    }

    // vm_fault, once the region is known to allow the access.
    method FaultInRegion(pid: nat, i: nat, va: nat, write: bool) returns (out: Trap)
      requires Valid() && i < |ListOf(lists, pid)|
      requires var r := ListOf(lists, pid)[i];
        && Aligned(r) && r.startAddr <= va <= r.endAddr && (if write then r.writable else r.readable)
        && Covers(s.regions, KeyOf(pid, r), PageKey(pid, va / PAGESIZE)) && s.regions[KeyOf(pid, r)] == RegionOf(r)
      requires PageKey(pid, va / PAGESIZE) in pageTable ==> write && !pageTable[PageKey(pid, va / PAGESIZE)].writable
      requires P.UserAddress(kernel, va)
      modifies this`others, this`memory, this`objects, this`lists, this`pageTable, this`s,
               heap, heap.mcb, heap.searchPos
      ensures var e := PageKey(pid, va / PAGESIZE);
        && out in {Resolved, PanicPagein, OutOfMemory} && e in a
        && (out == Resolved ==> a[e].content.Some? && e in pageTable && pageTable == old(pageTable)[e := pageTable[e]]
                                && (write && e in old(pageTable) ==> pageTable[e].writable))
        && (out == PanicPagein ==> a[e].content.None?)
      ensures if out != OutOfMemory then Valid() && others <= old(others)
              else !old(heap.CanServe(PAGESIZE)) || !heap.CanServe(SIZEOF_OBJECT)
    {
      hide Good, Coupling, ListsOk, Covers, Find, Fault, Ranked, FreshFrame, P.InUserland, CopyPage,
           PageIn, Contents, Initial, Bottom, Malloc.Allocator.CanServe;
      ghost var s0 := s;
      var e := PageKey(pid, va / PAGESIZE);
      var r := ListOf(lists, pid)[i];
      ghost var k := KeyOf(pid, r);
      CellOfRegion(s, a, k, e);
      MappedEntry(s, a, k, e, write);
      PageOfAddress(r, va);
      var offset := va - r.startAddr + r.srcOffset;
      var nr := offset / PAGESIZE;
      var found := FindPage(r.source, nr);
      ghost var f, t := 0, 0;
      if found == 0 {
        out, f := FaultPageIn(pid, r, va, nr);
        FaultIsPageIn(s0, k, e.vp, write, f, f * PAGESIZE);
        if out == Resolved { FaultRefines(s0, pid, r, va, write, f, f * PAGESIZE); }
      } else if write && r.cow {
        out, f, t := FaultCopy(pid, i, va, nr, found);
        FaultIsCopy(s0, k, e.vp, f, t, found);
        if out == Resolved { FaultRefines(s0, pid, r, va, write, f, t); }
      } else if e !in pageTable {
        FaultMaps(s, a, k, e.vp, found);
        MappedInUserland(s, e, found, r.writable && !r.cow, kernel);
        MapPage(pid, va, found, r.writable && !r.cow);
        out := Resolved;
      } else {
        assert false;   // "unknown page fault"
      }
    }

    // The page fault handler. The hardware traps where the page table does not allow the access, and its segments end
    // with userland.
    method VmFault(pid: nat, va: nat, write: bool) returns (out: Trap)
      requires Valid()
      requires PageKey(pid, va / PAGESIZE) in pageTable ==> write && !pageTable[PageKey(pid, va / PAGESIZE)].writable
      requires P.UserAddress(kernel, va)
      modifies this`others, this`memory, this`objects, this`lists, this`pageTable, this`s,
               heap, heap.mcb, heap.searchPos
      ensures TrapIs(ListOf(old(lists), pid) == [], a, PageKey(pid, va / PAGESIZE), write, out)
      ensures if out != OutOfMemory then Valid() && others <= old(others)
              else !old(heap.CanServe(PAGESIZE)) || !heap.CanServe(SIZEOF_OBJECT)
      ensures out == Resolved ==>
                var e := PageKey(pid, va / PAGESIZE);
                && e in pageTable && pageTable == old(pageTable)[e := pageTable[e]]
                && (write && e in old(pageTable) ==> pageTable[e].writable)
    {
      hide Good, Coupling, ListsOk, Aligned, CellOf;
      var e := PageKey(pid, va / PAGESIZE);
      if ListOf(lists, pid) == [] { return PanicNoRegions; }
      var i := FindRegion(pid, va);
      if i.None? {
        NoCell(s, a, e);
        return Sigsegv;
      }
      var r := ListOf(lists, pid)[i.value];
      CellOfRegion(s, a, KeyOf(pid, r), e);
      assert a[e].readable == r.readable && a[e].writable == r.writable by {
        CellFlags(s.store, s.regions[KeyOf(pid, r)], e.vp);
      }
      if !write && !r.readable { return Sigsegv; }
      if write && !r.writable && !r.cow { return Sigsegv; }
      out := FaultInRegion(pid, i.value, va, write);
    }

    // ---------------------------------------------------------------- freeing pages and objects

    // Takes page i out of the chain of o. prev is the page before it, 0 if there is none.
    method UnlinkFrame(o: ObjId, prev: nat, i: nat, ghost pre: seq<PageRef>, ghost post: seq<PageRef>)
      requires Coupling() && o in s.store.pages && i < heap.mcb.Length
      requires s.store.pages[o] == pre + [PageRef(heap.mcb[i].pageNr, i)] + post
      requires if pre == [] then prev == 0 else prev == pre[|pre| - 1].frame != 0
      modifies this`others, this`objects, this`s, heap.mcb
      ensures Coupling() && others == old(others) + {i * PAGESIZE}
      ensures s == old(s).(store := old(s.store).(pages := old(s.store.pages)[o := pre + post]))
      ensures heap.mcb[i].size == M.VMOBJECT_PAGE && FreshFrame(s.store.pages, i)
      ensures objects == old(objects)[o := old(objects)[o].(start := objects[o].start)]
    {
      hide M.WellFormed, M.FreeBytes, FreshFrame, Coupled, Mirror;
      ghost var m := heap.mcb[..];
      ghost var x := PageRef(m[i].pageNr, i);
      CoupledKeys(m, memory, objects, s.store.pages, s.store.mem, others);
      Unlinked(m, memory, objects, s.store.pages, s.store.mem, others, o, pre, x, post);
      assert Mirror(objects[o := objects[o].(start := m[i].next)], s.store.links, s.refs) by {
        SameMirror(objects, s, o, m[i].next);
      }
      if prev == 0 {
        objects := objects[o := objects[o].(start := heap.mcb[i].next)];
      } else {
        heap.mcb[prev] := heap.mcb[prev].(next := heap.mcb[i].next);
      }
      assert heap.mcb[..] == UnlinkedMcbs(m, pre, x);
      others := others + {i * PAGESIZE};
      s := s.(store := s.store.(pages := s.store.pages[o := pre + post]));
    }

    // One round of vm_object_freepages: page i goes, or becomes the page before the next one.
    method FreeIfInRange(o: ObjId, prev: nat, i: nat, ghost kept: seq<PageRef>, ghost post: seq<PageRef>,
                         first: nat, last: nat) returns (prev': nat, ghost kept': seq<PageRef>)
      requires Coupling() && o in objects && o in s.store.pages && 0 < i < heap.mcb.Length
      requires s.store.pages[o] == kept + [PageRef(heap.mcb[i].pageNr, i)] + post
      requires if kept == [] then prev == 0 else prev == kept[|kept| - 1].frame != 0
      modifies this`others, this`objects, this`s, heap`totalFree, heap.mcb
      ensures Coupling() && others <= old(others) && objects.Keys == old(objects.Keys)
      ensures s == old(s).(store := old(s.store).(pages := old(s.store.pages)[o := kept' + post]))
      ensures kept'
              == kept + if first <= old(heap.mcb[i].pageNr) <= last then [] else [PageRef(old(heap.mcb[i].pageNr), i)]
      ensures if kept' == [] then prev' == 0 else prev' == kept'[|kept'| - 1].frame != 0
    {
      hide Coupling, FreshFrame;
      if heap.mcb[i].pageNr >= first && heap.mcb[i].pageNr <= last {
        prev', kept' := prev, kept;
        assert kept + [] == kept;
        UnlinkFrame(o, prev, i, kept, post);
        FreeFrame(i);
      } else {
        prev', kept' := i, kept + [PageRef(heap.mcb[i].pageNr, i)];
        assert s.store.pages == s.store.pages[o := kept' + post];
        assert s.store == s.store.(pages := s.store.pages[o := kept' + post]);
      }
    }

    // vm_object_freepages
    method FreePages(o: ObjId, first: nat, last: nat)
      requires Coupling() && o in s.store.links
      modifies this`others, this`objects, this`s, heap`totalFree, heap.mcb
      ensures Coupling() && others <= old(others)
      ensures
        var pages := s.store.pages;
        && s == old(s).(store := old(s.store).(pages := pages))
        && pages - {o} == old(s.store.pages) - {o}
        && ChainOf(pages, o) == Kept(ChainOf(old(s.store.pages), o), first, last)
    {
      hide Coupling, FreshFrame, Kept;
      ObjectMirrors(o);
      ghost var chain := ChainOf(s.store.pages, o);
      ghost var done, kept, rest: seq<PageRef> := [], [], chain;
      var prev: nat := 0;
      ChainHead(o, chain);
      var pageindex := objects[o].start;
      KeptEmpty(first, last);
      while pageindex != 0
        invariant Coupling() && others <= old(others) && o in objects
        invariant s == old(s).(store := old(s.store).(pages := s.store.pages))
        invariant s.store.pages - {o} == old(s.store.pages) - {o}
        invariant chain == done + rest && kept == Kept(done, first, last) && ChainOf(s.store.pages, o) == kept + rest
        invariant if kept == [] then prev == 0 else prev == kept[|kept| - 1].frame != 0
        invariant if rest == [] then pageindex == 0 else pageindex == rest[0].frame != 0
        decreases |rest|
      {
        ghost var x, post := rest[0], rest[1..];
        assert rest == [x] + post;
        assert kept + rest == kept + [x] + post && done + rest == done + [x] + post;
        ChainNext(o, kept, x, post);
        KeptAppend(done, x, first, last);
        var page := pageindex;
        pageindex := heap.mcb[page].next;
        prev, kept := FreeIfInRange(o, prev, page, kept, post, first, last);
        done, rest := done + [x], post;
      }
      assert done + [] == done && kept + [] == kept;
    }

    lemma ChainHead(o: ObjId, rest: seq<PageRef>)
      requires Coupling() && o in objects && ChainOf(s.store.pages, o) == rest
      ensures rest == [] <==> objects[o].start == 0
      ensures rest != [] ==> objects[o].start == rest[0].frame != 0 && o in s.store.pages
    {
      ObjectAt(heap.mcb[..], memory, objects, s.store.pages, s.store.mem, o);
    }

    // Where the loop is: at page x, with `post` after it.
    lemma ChainNext(o: ObjId, kept: seq<PageRef>, x: PageRef, post: seq<PageRef>)
      requires Coupling() && o in objects && ChainOf(s.store.pages, o) == kept + [x] + post
      ensures o in s.store.pages && 0 < x.frame < heap.mcb.Length
      ensures heap.mcb[x.frame].size == M.VMOBJECT_PAGE && heap.mcb[x.frame].pageNr == x.nr
      ensures heap.mcb[x.frame].next == 0 <==> post == []
      ensures post != [] ==> heap.mcb[x.frame].next == post[0].frame
    {
      ObjectAt(heap.mcb[..], memory, objects, s.store.pages, s.store.mem, o);
      ChainBounds(heap.mcb[..], objects[o].start, kept, x, post);
    }

    // ---------------------------------------------------------------- vm_object_combine

    // While pages move, the start of sub's chain is in a local variable: objs is the object table with it.
    ghost predicate CoupledAs(objs: Objects, pages: Pages)
      reads this`memory, this`objects, this`s, this`others, heap, heap.mcb, heap.searchPos
    {
      heap.Valid() && Coupled(heap.mcb[..], memory, objs, pages, s.store.mem, others)
    }

    ghost predicate Combining(sub: ObjId, top: ObjId, pageindex: nat, objs: Objects, pages: Pages)
      reads this`memory, this`objects, this`s, this`others, heap, heap.mcb, heap.searchPos
    {
      && sub != top && sub in objects && top in objects && sub in pages && top in pages
      && sub in objs && objs[sub].start == pageindex && objs == objects[sub := objs[sub]]
      && CoupledAs(objs, pages)
    }

    lemma CombiningAt(sub: ObjId, top: ObjId, pageindex: nat, objs: Objects, pages: Pages)
      requires Combining(sub, top, pageindex, objs, pages)
      ensures sub in objects && top in objects && sub in pages && top in pages
      ensures Threaded(heap.mcb[..], pageindex, pages[sub]) && Threaded(heap.mcb[..], objects[top].start, pages[top])
      ensures if pages[sub] == [] then pageindex == 0
              else
                && pageindex == pages[sub][0].frame && 0 < pageindex < heap.mcb.Length
                && heap.mcb[pageindex].pageNr == pages[sub][0].nr && heap.mcb[pageindex].size == M.VMOBJECT_PAGE
    {
      ObjectAt(heap.mcb[..], memory, objs, pages, s.store.mem, sub);
      ObjectAt(heap.mcb[..], memory, objs, pages, s.store.mem, top);
    }

    // The page at pageindex goes to the front of top's chain.
    method MovePage(sub: ObjId, top: ObjId, pageindex: nat, ghost objs: Objects, ghost pages: Pages)
      returns (next: nat, ghost objs': Objects)
      requires Combining(sub, top, pageindex, objs, pages) && pages[sub] != []
      modifies this`objects, heap.mcb
      ensures var x, rest := pages[sub][0], pages[sub][1..];
        Combining(sub, top, next, objs', Pushed(pages[sub := rest], top, x))
      ensures top in old(objects) && objects == old(objects)[top := old(objects)[top].(start := pageindex)]
    {
      hide M.WellFormed, M.FreeBytes, Coupled;
      CombiningAt(sub, top, pageindex, objs, pages);
      ghost var m, x, rest := heap.mcb[..], pages[sub][0], pages[sub][1..];
      assert pages[sub] == [x] + rest;
      MovedPage(m, memory, objs, pages, s.store.mem, others, sub, top, x, rest);
      next := heap.mcb[pageindex].next;
      heap.mcb[pageindex] := heap.mcb[pageindex].(next := objects[top].start);
      objects := objects[top := objects[top].(start := pageindex)];
      objs' := objs[sub := objs[sub].(start := next)][top := objs[top].(start := pageindex)];
      assert heap.mcb[..] == m[x.frame := m[x.frame].(next := objs[top].start)];
    }

    // The page at pageindex is hidden by one of top's: it is freed.
    method DropPage(sub: ObjId, top: ObjId, pageindex: nat, ghost objs: Objects, ghost pages: Pages)
      returns (next: nat, ghost objs': Objects)
      requires Combining(sub, top, pageindex, objs, pages) && pages[sub] != []
      modifies this`others, heap`totalFree, heap.mcb
      ensures Combining(sub, top, next, objs', pages[sub := pages[sub][1..]])
      ensures others <= old(others)
    {
      hide M.WellFormed, M.FreeBytes, M.BlockAt, M.Freed, Coupled, FreshFrame, Threaded;
      CombiningAt(sub, top, pageindex, objs, pages);
      ghost var m, x, rest := heap.mcb[..], pages[sub][0], pages[sub][1..];
      ghost var pages', fewer := pages[sub := rest], others - {pageindex * PAGESIZE};
      assert [] + [x] + rest == pages[sub] && [] + rest == rest;
      Unlinked(m, memory, objs, pages, s.store.mem, others, sub, [], x, rest);
      next := heap.mcb[pageindex].next;
      objs' := objs[sub := objs[sub].(start := next)];
      MoreOthers(m, memory, objs', pages', s.store.mem, others + {pageindex * PAGESIZE},
                 fewer + {pageindex * PAGESIZE});
      LoosePageFreed(m, memory, objs', pages', s.store.mem, fewer, pageindex);
      PageHead(m, pageindex);
      var ok := heap.Free(pageindex * PAGESIZE);
      assert ok;
      others := fewer;
    }

    // The page loop: what top's chain lacks is moved there, the rest is freed.
    method MergePages(sub: ObjId, top: ObjId) returns (ghost objs: Objects, ghost pages: Pages)
      requires Coupling() && sub != top && sub in objects && top in objects
      modifies this`others, this`objects, heap`totalFree, heap.mcb
      ensures Combining(sub, top, 0, objs, pages) && others <= old(others)
      ensures pages == s.store.pages[sub := []][top := Merge(ChainOf(s.store.pages, sub), ChainOf(s.store.pages, top))]
      ensures OnlyStart(old(objects), objects, top)
    {
      hide Coupled, Combining, Both, Merge, OnlyStart, Pushed;
      ghost var base: Pages := s.store.pages;
      ghost var rest, t := ChainOf(base, sub), ChainOf(base, top);
      objs, pages := objects, Both(base, sub, rest, top, t);
      StartCombining(sub, top);
      var pageindex := objects[sub].start;
      while pageindex != 0
        invariant Combining(sub, top, pageindex, objs, pages) && others <= old(others)
        invariant pages == Both(base, sub, rest, top, t)
        invariant Merge(rest, t) == Merge(ChainOf(base, sub), ChainOf(base, top))
        invariant OnlyStart(old(objects), objects, top)
        decreases |rest|
      {
        CombiningAt(sub, top, pageindex, objs, pages);
        BothAt(base, sub, rest, top, t);
        ghost var x, rest' := rest[0], rest[1..];
        assert rest == [x] + rest';
        MergeStep(x, rest', t);
        BothMoved(base, sub, x, rest', top, t);
        var pageNr := heap.mcb[pageindex].pageNr;
        var found := FindInChain(objects[top].start, pageNr, t);
        if found == 0 {
          OnlyStartAgain(old(objects), objects, top, pageindex);
          pageindex, objs := MovePage(sub, top, pageindex, objs, pages);
          t := [x] + t;
        } else {
          pageindex, objs := DropPage(sub, top, pageindex, objs, pages);
        }
        rest := rest';
        pages := Both(base, sub, rest, top, t);
      }
      CombiningAt(sub, top, pageindex, objs, pages);
      BothAt(base, sub, rest, top, t);
      MergedAll(base, sub, top, t);
      assert OnlyStart(old(objects), objects, top);
    }

    lemma StartCombining(sub: ObjId, top: ObjId)
      requires Coupling() && sub != top && sub in objects && top in objects
      ensures Combining(sub, top, objects[sub].start, objects,
                        Both(s.store.pages, sub, ChainOf(s.store.pages, sub), top, ChainOf(s.store.pages, top)))
      ensures OnlyStart(objects, objects, top)
    {
      hide Coupled, FramesDistinct;
      var base := s.store.pages;
      Normalised(heap.mcb[..], memory, objects, base, s.store.mem, others, sub, top);
      assert objects == objects[sub := objects[sub]];
      assert objects == objects[top := objects[top].(start := objects[top].start)];
      BothAt(base, sub, ChainOf(base, sub), top, ChainOf(base, top));
    }

    // False stands for the panic "vm_object chain is corrupt".
    method ObjectCombine(sub: ObjId, top: ObjId) returns (ok: bool)
      requires Coupling() && Ranked(s.store.links) && sub in s.store.links
      requires top in s.store.links && s.store.links[sub].next in s.store.links
      modifies this`others, this`objects, this`s, heap`totalFree, heap.mcb
      ensures ok <==> old(s.store.links[top].next == sub && s.store.links[top].kind == Shadow
                          && s.store.links[sub].kind == Shadow)
      ensures !ok ==> Coupling() && s == old(s)
      ensures ok ==>
                sub in old(s.store.links) && top in old(s.store.links) && old(s.store.links)[sub].next in old(s.refs)
                     && Coupling() && s == Combine(old(s), sub, top) && others <= old(others)
    {
      hide Coupling, Ranked, Combine;
      ObjectMirrors(sub);
      ObjectMirrors(top);
      if objects[top].next != sub || objects[top].kind != Shadow || objects[sub].kind != Shadow { return false; }
      assert sub != top && s.store.links[sub].next != sub && s.store.links[sub].next != top by {
        Descending(s.store.links, sub, top);
      }
      CombineObjects(sub, top);
      return true;
    }

    method CombineObjects(sub: ObjId, top: ObjId)
      requires Coupling() && sub in s.store.links && top in s.store.links && sub != top
      requires s.store.links[sub].next in s.store.links && s.store.links[sub].next != sub
               && s.store.links[sub].next != top
      modifies this`others, this`objects, this`s, heap`totalFree, heap.mcb
      ensures sub in old(s.store.links) && top in old(s.store.links) && old(s.store.links)[sub].next in old(s.refs)
      ensures Coupling() && s == Combine(old(s), sub, top) && others <= old(others)
    {
      hide Merge, Coupled, Mirror, Combine, OnlyStart, Patched;
      ObjectMirrors(sub);
      ObjectMirrors(top);
      ObjectMirrors(s.store.links[sub].next);
      ghost var objs, pages := MergePages(sub, top);
      StartOnly(old(objects), objects, top, sub);
      ghost var mid := objects;
      PatchReferers(sub, top);
      PatchedStarts(old(objects), mid, objects, objs, sub, top);
      FreeMerged(old(objects), sub, top, objs, pages);
    }

    // newobj takes the place of subobj.
    method PatchReferers(sub: ObjId, top: ObjId)
      requires sub in objects && top in objects && objects[sub].next in objects
      requires sub != top && objects[sub].next != sub && objects[sub].next != top
      modifies this`objects
      ensures objects.Keys == old(objects.Keys)
      ensures forall o :: o in objects && o in old(objects) ==>
                objects[o] == Patched(old(objects)[o], o, old(objects[sub].next), sub, top)
    {
      var y := objects[sub].next;
      objects := objects[top := objects[top].(next := y)];
      if objects[y].ref1 == sub { objects := objects[y := objects[y].(ref1 := top)]; }
      if objects[y].ref2 == sub { objects := objects[y := objects[y].(ref2 := top)]; }
    }

    // The end of vm_object_combine: subobj, now without pages, is freed.
    method FreeMerged(ghost before: Objects, sub: ObjId, top: ObjId, ghost objs: Objects, ghost pages: Pages)
      requires heap.Valid() && Merged(heap.mcb[..], memory, before, objects, objs, pages, s, others, sub, top)
      modifies this`objects, this`s, heap`totalFree, heap.mcb
      ensures sub in old(s.store.links) && top in old(s.store.links) && old(s.store.links)[sub].next in old(s.refs)
      ensures Coupling() && s == Combine(old(s), sub, top)
    {
      hide Merged, Coupled, Mirror, M.BlockAt, M.Freed, M.WellFormed, M.FreeBytes, Combine;
      MergedFreed(heap.mcb[..], memory, before, objects, objs, pages, s, others, sub, top);
      ObjectHead(heap.mcb[..], sub);
      var freed := heap.Free(sub);
      assert freed;
      objects := objects - {sub};
      s := Combine(s, sub, top);
    }

    // Frees an object without pages.
    method FreeObject(o: ObjId)
      requires Coupling() && o in s.store.links && ChainOf(s.store.pages, o) == []
      modifies this`objects, this`s, heap`totalFree, heap.mcb
      ensures Coupling() && s == RemoveObject(old(s), o)
    {
      hide Coupled, Mirror, M.BlockAt, M.Freed, M.WellFormed, M.FreeBytes;
      ObjectMirrors(o);
      ObjectFreed(heap.mcb[..], memory, objects, s.store.pages, s.store.mem, others, o);
      ObjectHead(heap.mcb[..], o);
      RemoveMirror(objects, s, o);
      var freed := heap.Free(o);
      assert freed;
      objects := objects - {o};
      s := RemoveObject(s, o);
    }

    method SetCount(o: ObjId, count: int)
      requires Coupling() && o in objects && o in s.refs
      modifies this`objects, this`s
      ensures Coupling() && s == old(s).(refs := old(s.refs)[o := old(s.refs)[o].(count := count)])
      ensures objects.Keys == old(objects.Keys)
    {
      hide Coupled, Mirror;
      StartKept(heap.mcb[..], memory, objects, s.store.pages, s.store.mem, others, o, objects[o].(refcount := count));
      CountMirror(objects, s, o, count);
      objects := objects[o := objects[o].(refcount := count)];
      s := s.(refs := s.refs[o := s.refs[o].(count := count)]);
    }

    lemma ObjectIs(o: ObjId)
      requires Coupling() && o in s.store.links
      ensures o in objects && o in s.refs
      ensures var r, l, c := objects[o], s.store.links[o], s.refs[o];
        && r.kind == l.kind && r.next == l.next && (r.vnode.Some? <==> l.kind == File)
        && r.refcount == c.count && r.ref1 == c.ref1 && r.ref2 == c.ref2
    {
      ObjectMirrors(o);
    }

    lemma ChainEmpties(o: ObjId)
      requires Coupling() && o in objects
      ensures Kept(ChainOf(s.store.pages, o), 0, MAX_PAGE_NR) == []
    {
      ObjectAt(heap.mcb[..], memory, objects, s.store.pages, s.store.mem, o);
      KeptNone(ChainOf(s.store.pages, o));
    }

    // vm_object_free, for the object below one that goes: it loses a referer, or is merged with its other referer.
    method FreeBelow(o: ObjId)
      requires Coupling() && Ranked(s.store.links) && o in s.store.links && s.refs.Keys == s.store.links.Keys
      requires ReleaseBelow(s, o).Some?
      modifies this`others, this`objects, this`s, heap`totalFree, heap.mcb
      ensures Ranked(old(s.store.links)) && o in old(s.store.links) && old(s.refs.Keys) == old(s.store.links.Keys)
      ensures Coupling() && ReleaseBelow(old(s), o) == Some(s) && others <= old(others)
      decreases s.store.links[o].birth, 0
    {
      hide Coupling, Ranked, Release, Combine;
      ObjectIs(o);
      var next := objects[o].next;
      if next != 0 {
        RankedNext(s.store.links, o);
        ObjectIs(next);
        if objects[next].refcount == 2 && objects[next].kind == Shadow {
          var object3 := objects[next].ref1;
          if object3 == o { object3 := objects[next].ref2; }
          RankedNext(s.store.links, next);
          var ok := ObjectCombine(next, object3);
          assert ok;
        } else {
          ObjectFree(next);
        }
      }
    }

    // vm_object_free
    method ObjectFree(o: ObjId)
      requires Coupling() && Ranked(s.store.links) && o in s.store.links && s.refs.Keys == s.store.links.Keys
      requires Release(s, o).Some?
      modifies this`others, this`objects, this`s, heap`totalFree, heap.mcb
      ensures Ranked(old(s.store.links)) && o in old(s.store.links) && old(s.refs.Keys) == old(s.store.links.Keys)
      ensures Coupling() && Release(old(s), o) == Some(s) && others <= old(others)
      decreases s.store.links[o].birth, 1
    {
      hide Coupling, Ranked, Release, Combine, RemoveObject, ReleaseBelow;
      ghost var s0 := s;
      ObjectIs(o);
      CountedSame(s, o);
      SetCount(o, objects[o].refcount - 1);
      assert s == Counted(s0, o);
      ObjectIs(o);
      if objects[o].refcount > 0 {
        ReleaseKept(s0, o);
        return;
      }
      ReleaseGone(s0, o);
      BelowLeaves(s, o, o);
      FreeBelow(o);
      ObjectIs(o);
      if objects[o].vnode == None {
        ghost var s1 := s;
        ChainEmpties(o);
        FreePages(o, 0, MAX_PAGE_NR);
        RemoveWithoutPages(s1, s, o);
        FreeObject(o);
      }
    }

    // ---------------------------------------------------------------- mapping

    // vm_region_attach: the region is put first in the list.
    method RegionAttach(pid: nat, r: VmRegion)
      requires Coupling() && ListsOk(lists, s.regions) && Aligned(r)
      requires r.source in s.store.links && KeyOf(pid, r) !in s.regions
      modifies this`objects, this`lists, this`s
      ensures Coupling() && ListsOk(lists, s.regions)
      ensures r.source in old(s.refs) && s == AttachRegion(old(s), KeyOf(pid, r), RegionOf(r))
      ensures lists == old(lists)[pid := [r] + ListOf(old(lists), pid)] && objects.Keys == old(objects.Keys)
    {
      hide Coupling, ListsOk, Aligned;
      ObjectIs(r.source);
      SetCount(r.source, objects[r.source].refcount + 1);
      ListsAdded(lists, s.regions, pid, r);
      AddRegion(pid, r);
    }

    method AddRegion(pid: nat, r: VmRegion)
      requires Coupling() && ListsOk(lists[pid := [r] + ListOf(lists, pid)], s.regions[KeyOf(pid, r) := RegionOf(r)])
      modifies this`lists, this`s
      ensures Coupling() && ListsOk(lists, s.regions)
      ensures s == old(s).(regions := old(s.regions)[KeyOf(pid, r) := RegionOf(r)])
      ensures lists == old(lists)[pid := [r] + ListOf(old(lists), pid)]
    {
      lists := lists[pid := [r] + ListOf(lists, pid)];
      s := s.(regions := s.regions[KeyOf(pid, r) := RegionOf(r)]);
    }

    // vm_object_create for an anonymous object, or for the object of a vnode.
    method BottomCreate(kind: Kind, vnode: nat) returns (o: Option<ObjId>)
      requires Coupling() && kind != Shadow
      modifies this`objects, this`s, heap, heap.mcb, heap.searchPos
      ensures o.Some? <==> old(heap.CanServe(SIZEOF_OBJECT))
      ensures o.Some? ==>
                && Coupling() && o.value !in old(s.store.links) && o.value != 0
                && s == CreateObject(old(s), o.value, kind, vnode) && o.value in objects
    {
      hide Coupled, Mirror;
      o := ObjectCreate(kind);
      if o.None? { return; }
      var r := objects[o.value].(vnode := if kind == File then Some(vnode) else None);
      MirrorKeys(old(objects), s.store.links, s.refs);
      CreateMirror(old(objects), s, o.value, kind, vnode);
      StartKept(heap.mcb[..], memory, objects, s.store.pages, s.store.mem, others, o.value, r);
      assert objects[o.value := r] == old(objects)[o.value := r];
      objects := objects[o.value := r];
      s := CreateObject(s, o.value, kind, vnode);
    }

    // Private zero-filled memory: mmap with MAP_ANON, bss and stack.
    method MapZeroes(pid: nat, r: VmRegion) returns (ok: bool)
      requires Valid() && Aligned(r) && FreeOf(ListOf(lists, pid), r) && (r.cow ==> r.writable)
      modifies this`objects, this`lists, this`s, this`a, heap, heap.mcb, heap.searchPos
      ensures ok <==> old(heap.CanServe(SIZEOF_OBJECT))
      ensures ok ==> Valid() && a == old(a) + MappedCells(files, pid, RegionOf(r), Anonymous, 0)
      ensures ok ==> ShowsZeroes(a, pid, r) && SameOutside(old(a), a, pid, r.startAddr, r.endAddr)
      ensures ok ==> Attached(old(lists), lists, pid, r)
    {
      hide Valid, Aligned, FreeOf, MappedCells, ShowsZeroes, SameOutside, Attached;
      MappedZeroesShow(files, a, pid, r);
      MappedOutside(files, a, pid, r, Anonymous, 0);
      ok := MapAnonymousMemory(pid, r);
    }

    method MapAnonymousMemory(pid: nat, r: VmRegion) returns (ok: bool)
      requires Valid() && Aligned(r) && FreeOf(ListOf(lists, pid), r) && (r.cow ==> r.writable)
      modifies this`objects, this`lists, this`s, this`a, heap, heap.mcb, heap.searchPos
      ensures ok <==> old(heap.CanServe(SIZEOF_OBJECT))
      ensures ok ==> Valid() && a == old(a) + MappedCells(files, pid, RegionOf(r), Anonymous, 0)
      ensures ok ==> Attached(old(lists), lists, pid, r)
    {
      hide Coupling, ListsOk, Aligned, Good, FreeOf, FreePlace, AttachRegion, MappedCells, P.InUserland, ChainOf,
           Attached;
      ghost var s0 := s;
      var o := BottomCreate(Anonymous, 0);
      if o.None? { return false; }
      var region := r.(source := o.value);
      NewPlace(lists, s0.regions, pid, r, o.value);
      CellsIgnoreSource(files, pid, r, o.value, Anonymous, 0);
      MapZeroesRefines(s0, pid, region);
      ObjectMirrors(o.value);
      RegionAttach(pid, region);
      NowAttached(old(lists), lists, pid, r, o.value);
      a := a + MappedCells(files, pid, RegionOf(r), Anonymous, 0);
      return true;
    }

    lemma MapZeroesRefines(s0: State, pid: nat, r: VmRegion)
      requires Good(s0, a) && FreePlace(s0.regions, pid, RegionOf(r)) && (r.cow ==> r.writable)
      requires r.source !in s0.store.links && r.source != 0 && KeyOf(pid, r) !in s0.regions
      ensures var s1 := CreateObject(s0, r.source, Anonymous, 0);
        && r.source in s1.store.links && s1.regions == s0.regions && r.source in s1.refs
        && var s2 := AttachRegion(s1, KeyOf(pid, r), RegionOf(r));
           && Good(s2, a + MappedCells(s0.store.files, pid, RegionOf(r), Anonymous, 0))
           && s2.pt == s0.pt && s2.vmobj == s0.vmobj && s2.store.files == s0.store.files
    {
      hide Good, FreePlace, MappedCells;
      MapAnonymousStep(s0, a, pid, RegionOf(r));
    }

    // The vm_object of a vnode, created if it has none.
    method VnodeObject(vnode: nat) returns (o: Option<ObjId>)
      requires Coupling() && vmobj == s.vmobj && (vnode in s.vmobj ==> s.vmobj[vnode] in s.store.links)
      modifies this`objects, this`s, this`vmobj, heap, heap.mcb, heap.searchPos
      ensures o.Some? <==> vnode in old(vmobj) || old(heap.CanServe(SIZEOF_OBJECT))
      ensures vnode in old(vmobj) ==> o == Some(old(vmobj)[vnode]) && vmobj == old(vmobj)
      ensures o.Some? ==> Coupling() && vmobj == s.vmobj && FileObjectMade(old(s), s, vnode, o.value)
    {
      hide Coupling;
      if vnode in vmobj { return Some(vmobj[vnode]); }
      o := BottomCreate(File, vnode);
      if o.None? { return; }
      SetVnode(vnode, o.value);
    }

    // A mapped file, private: read-only, or copied on write.
    method MapFilePages(pid: nat, r: VmRegion, vnode: nat) returns (ok: bool)
      requires Valid() && Aligned(r) && FreeOf(ListOf(lists, pid), r) && r.cow == r.writable
      modifies this`objects, this`lists, this`s, this`a, this`vmobj, heap, heap.mcb, heap.searchPos
      ensures ok ==> Valid() && a == old(a) + MappedCells(files, pid, RegionOf(r), File, vnode)
      ensures ok ==> ShowsFile(a, files, pid, r, vnode) && SameOutside(old(a), a, pid, r.startAddr, r.endAddr)
      ensures ok ==> Attached(old(lists), lists, pid, r)
      ensures ok <==> vnode in old(vmobj) || old(heap.CanServe(SIZEOF_OBJECT))
      ensures vnode in old(vmobj) ==> vmobj == old(vmobj)
    {
      hide Valid, Aligned, FreeOf, MappedCells, ShowsFile, SameOutside, Attached;
      MappedFileShows(files, a, pid, r, vnode);
      MappedOutside(files, a, pid, r, File, vnode);
      ok := MapVnode(pid, r, vnode);
    }

    method MapVnode(pid: nat, r: VmRegion, vnode: nat) returns (ok: bool)
      requires Valid() && Aligned(r) && FreeOf(ListOf(lists, pid), r) && r.cow == r.writable
      modifies this`objects, this`lists, this`s, this`a, this`vmobj, heap, heap.mcb, heap.searchPos
      ensures ok ==> Valid() && a == old(a) + MappedCells(files, pid, RegionOf(r), File, vnode)
      ensures ok ==> Attached(old(lists), lists, pid, r)
      ensures ok <==> vnode in old(vmobj) || old(heap.CanServe(SIZEOF_OBJECT))
      ensures vnode in old(vmobj) ==> vmobj == old(vmobj)
    {
      hide Coupling, ListsOk, Aligned, Good, FreeOf, FreePlace, AttachRegion, FileObjectMade, MappedCells,
           P.InUserland, Attached;
      ghost var s0 := s;
      if vnode in vmobj { CellOfVnode(vnode); }
      var o := VnodeObject(vnode);
      if o.None? { return false; }
      var region := r.(source := o.value);
      NewPlace(lists, s0.regions, pid, r, o.value);
      CellsIgnoreSource(files, pid, r, o.value, File, vnode);
      MapFileRefines(s0, s, pid, region, vnode);
      RegionAttach(pid, region);
      NowAttached(old(lists), lists, pid, r, o.value);
      a := a + MappedCells(files, pid, RegionOf(r), File, vnode);
      return true;
    }

    method SetVnode(vnode: nat, o: ObjId)
      requires Coupling() && vmobj == s.vmobj
      modifies this`s, this`vmobj
      ensures Coupling() && s == old(s).(vmobj := old(s.vmobj)[vnode := o]) && vmobj == s.vmobj
    {
      vmobj := vmobj[vnode := o];
      s := s.(vmobj := vmobj);
    }

    lemma CellOfVnode(vnode: nat)
      requires Good(s, a) && vnode in s.vmobj
      ensures s.vmobj[vnode] in s.store.links && s.vmobj[vnode] in s.refs
    {
      GoodIsStepable(s, a);
    }

    lemma MapFileRefines(s0: State, s1: State, pid: nat, r: VmRegion, vnode: nat)
      requires Good(s0, a) && FreePlace(s0.regions, pid, RegionOf(r)) && r.cow == r.writable
      requires FileObjectMade(s0, s1, vnode, r.source)
      ensures r.source in s1.store.links && s1.regions == s0.regions && r.source in s1.refs
      ensures var s2 := AttachRegion(s1, KeyOf(pid, r), RegionOf(r));
        && Good(s2, a + MappedCells(s0.store.files, pid, RegionOf(r), File, vnode))
        && s2.pt == s0.pt && s2.vmobj == s1.vmobj && s2.store.files == s0.store.files
    {
      hide Good, FreePlace, MappedCells;
      GoodIsStepable(s0, a);
      MapFileStep(s0, a, pid, RegionOf(r), vnode);
    }

    // ---------------------------------------------------------------- unmapping

    // The region at place i of the list goes, and its object loses a referer. Its pages are not mapped any more.
    method RemoveRegion(pid: nat, i: nat)
      requires Valid() && i < |ListOf(lists, pid)|
      requires forall e :: e in pageTable && e.pid == pid ==>
                 !(ListOf(lists, pid)[i].startAddr <= e.vp * PAGESIZE <= ListOf(lists, pid)[i].endAddr)
      modifies this`others, this`objects, this`lists, this`s, this`a, heap`totalFree, heap.mcb
      ensures Valid() && others <= old(others)
      ensures var list := ListOf(old(lists), pid);
        && lists == old(lists)[pid := list[..i] + list[i + 1..]]
        && a == WithoutRange(old(a), pid, RegionOf(list[i]).first, RegionOf(list[i]).last)
    {
      hide Coupling, ListsOk, Aligned, Good, Release, Unmapped, WithoutRange, P.InUserland, Ranked;
      ghost var s0 := s;
      var list := ListOf(lists, pid);
      var r := list[i];
      ghost var k := KeyOf(pid, r);
      ListedAt(lists, s.regions, pid, i);
      NothingUnmapped(s.pt, pid, r);
      RemoveRefines(s0, pid, r);
      ListsRemoved(lists, s.regions, pid, i);
      DropKey(k);
      ObjectFree(r.source);
      lists := lists[pid := list[..i] + list[i + 1..]];
      a := WithoutRange(a, pid, RegionOf(r).first, RegionOf(r).last);
    }

    ghost method DropKey(k: RegKey)
      requires Coupling()
      modifies this`s
      ensures Coupling() && s == old(s).(regions := old(s.regions) - {k})
    {
      s := s.(regions := s.regions - {k});
    }

    lemma RemoveRefines(s0: State, pid: nat, r: VmRegion)
      requires Good(s0, a) && KeyOf(pid, r) in s0.regions && s0.regions[KeyOf(pid, r)] == RegionOf(r)
      requires Unmapped(s0.pt, pid, RegionOf(r).first, RegionOf(r).last) == s0.pt
      ensures var s1 := s0.(regions := s0.regions - {KeyOf(pid, r)});
        && Ranked(s1.store.links) && r.source in s1.store.links && s1.refs.Keys == s1.store.links.Keys
        && Release(s1, r.source).Some?
        && var s2 := Release(s1, r.source).value;
           && Good(s2, WithoutRange(a, pid, RegionOf(r).first, RegionOf(r).last))
           && s2.regions == s1.regions && s2.pt == s0.pt && s2.vmobj == s0.vmobj && s2.store.files == s0.store.files
    {
      hide Used, Refines, Release, Unmapped, RefsOk, RegionsOk, PtOk, FilesOk, StoreOk;
      var k := KeyOf(pid, r);
      var s1 := s0.(regions := s0.regions - {k});
      GoodIsStepable(s0, a);
      DetachKeeps(s0, k);
      UnmapStep(s0, a, k, RegionOf(r).last);
      assert Detach(s0, k) == Release(s1, r.source);
    }

    // vm_region_detach. False if no region starts there.
    method RegionDetach(pid: nat, startAddr: nat) returns (ok: bool)
      requires Valid()
      requires forall e, r :: e in pageTable && e.pid == pid && r in ListOf(lists, pid) && r.startAddr == startAddr ==>
                 !(r.startAddr <= e.vp * PAGESIZE <= r.endAddr)
      modifies this`others, this`objects, this`lists, this`s, this`a, heap`totalFree, heap.mcb
      ensures Valid() && others <= old(others)
      ensures ok <==>
              exists i :: 0 <= i < |ListOf(old(lists), pid)| && ListOf(old(lists), pid)[i].startAddr == startAddr
      ensures !ok ==> a == old(a) && lists == old(lists)
      ensures ok ==> exists i :: DetachedAt(old(lists), old(a), pid, i, startAddr, lists, a)
    {
      hide Valid, WithoutRange;
      var list := ListOf(lists, pid);
      for i := 0 to |list|
        invariant forall j :: 0 <= j < i ==> list[j].startAddr != startAddr
      {
        if list[i].startAddr == startAddr {
          IsListed(pid, i);
          WithoutRegion(a, pid, list[i]);
          RemoveRegion(pid, i);
          assert DetachedAt(old(lists), old(a), pid, i, startAddr, lists, a);
          return true;
        }
      }
      return false;
    }

    method DropTables(pid: nat)
      requires Valid()
      modifies this`pageTable, this`s
      ensures Valid() && forall e :: e in pageTable ==> e.pid != pid
    {
      hide Coupled, Mirror, ListsOk, Good;
      DropGood(s, a, pid);
      pageTable := map e | e in pageTable && e.pid != pid :: pageTable[e];
      s := DropProcess(s, pid);
    }

    // What exit does to a process' memory. Its page tables are never used again.
    method ProcExit(pid: nat)
      requires Valid()
      modifies this`others, this`objects, this`lists, this`pageTable, this`s, this`a, heap`totalFree, heap.mcb
      ensures Valid() && others <= old(others)
      ensures a == WithoutProcess(old(a), pid) && ListOf(lists, pid) == []
      ensures forall e :: e in a <==> e in old(a) && e.pid != pid
      ensures forall e :: e in a ==> a[e] == old(a)[e]
      ensures forall q :: q != pid ==> ListOf(lists, q) == ListOf(old(lists), q)
    {
      hide Coupling, ListsOk, Good, DetachedAt;
      DropTables(pid);
      while ListOf(lists, pid) != []
        invariant Valid() && others <= old(others) && FewerCells(old(a), a, pid)
        invariant forall e :: e in pageTable ==> e.pid != pid
        invariant forall q :: q != pid ==> ListOf(lists, q) == ListOf(old(lists), q)
        decreases |ListOf(lists, pid)|
      {
        ghost var lists0, a0, start := lists, a, ListOf(lists, pid)[0].startAddr;
        var ok := RegionDetach(pid, ListOf(lists, pid)[0].startAddr);
        assert ok;
        ghost var i :| DetachedAt(lists0, a0, pid, i, start, lists, a);
        DetachedCells(old(a), lists0, a0, pid, i, start, lists, a);
      }
      NoRegionsNoCells(lists, s, a, pid);
      WithoutAll(old(a), a, pid);
    }

    // ---------------------------------------------------------------- munmap

    // pmap_unmappages
    method UnmapPages(pid: nat, startAddr: nat, endAddr: nat)
      requires Valid() && A.OnPages(startAddr, endAddr)
      modifies this`pageTable, this`s, this`kernelWhole
      ensures Valid() && pageTable == P.UnmapRange(old(pageTable), pid, kernel, startAddr, endAddr)
      ensures NoneMapped(pageTable, pid, startAddr / PAGESIZE, endAddr / PAGESIZE)
      ensures kernelWhole == (old(kernelWhole) && P.UserAddress(kernel, startAddr))
    {
      hide Coupled, Mirror, ListsOk, Good, P.FirstUser, P.LastUser;
      P.UnmapRangeIs(pageTable, pid, kernel, startAddr, endAddr);
      UnmapGood(s, a, pid, P.FirstUser(kernel, startAddr), P.LastUser(kernel, startAddr, endAddr));
      pageTable := P.UnmapRange(pageTable, pid, kernel, startAddr, endAddr);
      s := s.(pt := P.UnmapRange(s.pt, pid, kernel, startAddr, endAddr));
      kernelWhole := kernelWhole && P.UserAddress(kernel, startAddr);
    }

    // The end of a region goes.
    method CutEnd(pid: nat, i: nat, startAddr: nat, endAddr: nat)
      requires Valid() && i < |ListOf(lists, pid)| && A.OnPages(startAddr, endAddr)
      requires NoneMapped(pageTable, pid, startAddr / PAGESIZE, endAddr / PAGESIZE)
      requires var r := ListOf(lists, pid)[i]; r.startAddr < startAddr <= r.endAddr <= endAddr
      modifies this`lists, this`s, this`a
      ensures Valid()
      ensures var list := ListOf(old(lists), pid);
        && lists == old(lists)[pid := list[i := list[i].(endAddr := startAddr - 1)]]
        && Thinned(old(a), a, pid, startAddr / PAGESIZE, endAddr / PAGESIZE)
    {
      hide Coupling, ListsOk, Aligned, Good, NoneMapped, Unmapped;
      var list := ListOf(lists, pid);
      var region := list[i];
      ghost var k, lo, hi := KeyOf(pid, region), startAddr / PAGESIZE, RegionOf(region).last;
      ListedAt(lists, s.regions, pid, i);
      LowIs(region, startAddr, endAddr);
      RangeInPages(region, startAddr, endAddr);
      GoodIsStepable(s, a);
      NothingThere(s.pt, pid, lo, endAddr / PAGESIZE, lo, hi);
      CutGood(s, a, k, lo, hi);
      region := region.(endAddr := startAddr - 1);
      ListsChanged(lists, s.regions, pid, i, region);
      ThinnedMore(a, a, pid, lo, endAddr / PAGESIZE, lo, hi);
      SetRegions(lists[pid := list[i := region]], s.regions[k := RegionOf(region)]);
      a := WithoutRange(a, pid, lo, hi);
    }

    // The start of a region goes.
    method CutStart(pid: nat, i: nat, startAddr: nat, endAddr: nat)
      requires Valid() && i < |ListOf(lists, pid)| && A.OnPages(startAddr, endAddr)
      requires NoneMapped(pageTable, pid, startAddr / PAGESIZE, endAddr / PAGESIZE)
      requires var r := ListOf(lists, pid)[i]; startAddr <= r.startAddr <= endAddr < r.endAddr
      modifies this`lists, this`s, this`a
      ensures Valid()
      ensures var list := ListOf(old(lists), pid);
        && lists == old(lists)[pid := list[i := High(list[i], endAddr)]]
        && Thinned(old(a), a, pid, startAddr / PAGESIZE, endAddr / PAGESIZE)
    {
      hide Coupling, ListsOk, Aligned, Good, NoneMapped, WithoutRange, Thinned, P.InUserland;
      var list := ListOf(lists, pid);
      var region := list[i];
      ghost var k, lo, hi := KeyOf(pid, region), RegionOf(region).first, endAddr / PAGESIZE;
      ListedAt(lists, s.regions, pid, i);
      HighGood(pid, i, startAddr, endAddr);
      ThinnedNot(a, pid, startAddr / PAGESIZE, hi);
      region := region.(startAddr := endAddr + 1, srcOffset := region.srcOffset + (endAddr + 1 - region.startAddr));
      ListsMoved(lists, s.regions, pid, i, region);
      ThinnedMore(a, a, pid, startAddr / PAGESIZE, hi, lo, hi);
      SetRegions(lists[pid := list[i := region]], (s.regions - {k})[KeyOf(pid, region) := RegionOf(region)]);
      a := WithoutRange(a, pid, lo, hi);
    }

    lemma HighGood(pid: nat, i: nat, startAddr: nat, endAddr: nat)
      requires Valid() && i < |ListOf(lists, pid)| && A.OnPages(startAddr, endAddr)
      requires NoneMapped(pageTable, pid, startAddr / PAGESIZE, endAddr / PAGESIZE)
      requires var r := ListOf(lists, pid)[i]; startAddr <= r.startAddr <= endAddr < r.endAddr
      ensures
        var r := ListOf(lists, pid)[i];
        var high, lo, hi := High(r, endAddr), RegionOf(r).first, endAddr / PAGESIZE;
        && Aligned(high) && KeyOf(pid, high) !in s.regions && startAddr / PAGESIZE <= lo
        && Good(s.(regions := (s.regions - {KeyOf(pid, r)})[KeyOf(pid, high) := RegionOf(high)]),
                WithoutRange(a, pid, lo, hi))
    {
      hide Coupling, ListsOk, Aligned, Good, NoneMapped, Unmapped, WithoutRange;
      var r := ListOf(lists, pid)[i];
      var lo, hi := RegionOf(r).first, endAddr / PAGESIZE;
      ListedAt(lists, s.regions, pid, i);
      HighIs(r, startAddr, endAddr);
      RangeInPages(r, startAddr, endAddr);
      GoodIsStepable(s, a);
      NothingThere(s.pt, pid, startAddr / PAGESIZE, hi, lo, hi);
      CutGood(s, a, KeyOf(pid, r), lo, hi);
    }

    method SetRegions(lists': Lists, ghost regions: Regions)
      requires Coupling()
      modifies this`lists, this`s
      ensures Coupling() && lists == lists' && s == old(s).(regions := regions)
    {
      lists := lists';
      s := s.(regions := regions);
    }

    // The middle of a region goes: it is split in two, of which the second is a new region of the same object.
    method CutMiddle(pid: nat, i: nat, startAddr: nat, endAddr: nat)
      requires Valid() && i < |ListOf(lists, pid)| && A.OnPages(startAddr, endAddr)
      requires NoneMapped(pageTable, pid, startAddr / PAGESIZE, endAddr / PAGESIZE)
      requires var r := ListOf(lists, pid)[i]; Splits(r, startAddr, endAddr) && MaySplit(objects, r)
      modifies this`lists, this`s, this`a, this`objects
      ensures Valid()
      ensures var list := ListOf(old(lists), pid);
        && lists == old(lists)[pid := [High(list[i], endAddr)] + list[i := list[i].(endAddr := startAddr - 1)]]
        && Thinned(old(a), a, pid, startAddr / PAGESIZE, endAddr / PAGESIZE)
    {
      hide Coupling, ListsOk, Aligned, Good, NoneMapped, Thinned, WithoutRange, AttachRegion, P.InUserland;
      var list := ListOf(lists, pid);
      var region := list[i];
      var low := region.(endAddr := startAddr - 1);
      MiddleLists(pid, i, startAddr, endAddr);
      MiddleGood(pid, i, startAddr, endAddr);
      SetRegions(lists[pid := list[i := low]], s.regions[KeyOf(pid, region) := RegionOf(low)]);
      RegionAttach(pid, High(region, endAddr));
      a := WithoutRange(a, pid, startAddr / PAGESIZE, endAddr / PAGESIZE);
    }

    // The list and the regions with the lower part.
    lemma MiddleLists(pid: nat, i: nat, startAddr: nat, endAddr: nat)
      requires Valid() && i < |ListOf(lists, pid)| && A.OnPages(startAddr, endAddr)
      requires Splits(ListOf(lists, pid)[i], startAddr, endAddr)
      ensures var r := ListOf(lists, pid)[i];
        var low := r.(endAddr := startAddr - 1);
        ListsOk(lists[pid := ListOf(lists, pid)[i := low]], s.regions[KeyOf(pid, r) := RegionOf(low)])
    {
      hide Coupling, ListsOk, Aligned, Good;
      var r := ListOf(lists, pid)[i];
      ListedAt(lists, s.regions, pid, i);
      LowIs(r, startAddr, endAddr);
      ListsChanged(lists, s.regions, pid, i, r.(endAddr := startAddr - 1));
    }

    // With the higher part as well, it is the model's cut.
    lemma MiddleGood(pid: nat, i: nat, startAddr: nat, endAddr: nat)
      requires Valid() && i < |ListOf(lists, pid)| && A.OnPages(startAddr, endAddr)
      requires NoneMapped(pageTable, pid, startAddr / PAGESIZE, endAddr / PAGESIZE)
      requires var r := ListOf(lists, pid)[i]; Splits(r, startAddr, endAddr) && MaySplit(objects, r)
      ensures
        var r := ListOf(lists, pid)[i];
        var high, lo, hi := High(r, endAddr), startAddr / PAGESIZE, endAddr / PAGESIZE;
        var s1 := s.(regions := s.regions[KeyOf(pid, r) := RegionOf(r.(endAddr := startAddr - 1))]);
        && Aligned(high) && KeyOf(pid, high) !in s1.regions && r.source in s.store.links && r.source in s.refs
        && var s2 := AttachRegion(s1, KeyOf(pid, high), RegionOf(high));
           && Good(s2, WithoutRange(a, pid, lo, hi)) && s2.pt == s.pt && s2.vmobj == s.vmobj
           && s2.store.files == s.store.files && Thinned(a, WithoutRange(a, pid, lo, hi), pid, lo, hi)
    {
      hide Coupling, ListsOk, Aligned, Good, NoneMapped, Unmapped, Thinned, WithoutRange;
      var r := ListOf(lists, pid)[i];
      var k, lo, hi := KeyOf(pid, r), startAddr / PAGESIZE, endAddr / PAGESIZE;
      ListedAt(lists, s.regions, pid, i);
      LowIs(r, startAddr, endAddr);
      HighIs(r, startAddr, endAddr);
      RangeInPages(r, startAddr, endAddr);
      GoodIsStepable(s, a);
      ObjectMirrors(r.source);
      NothingThere(s.pt, pid, lo, hi, lo, hi);
      CutGood(s, a, k, lo, hi);
      ThinnedNot(a, pid, lo, hi);
      ThinnedMore(a, a, pid, lo, hi, lo, hi);
    }

    // One round of munmap's loop. A region that is split is put first in the list.
    method UnmapRegion(pid: nat, i: nat, startAddr: nat, endAddr: nat) returns (next: nat)
      requires Valid() && i < |ListOf(lists, pid)| && A.OnPages(startAddr, endAddr)
      requires NoneMapped(pageTable, pid, startAddr / PAGESIZE, endAddr / PAGESIZE)
      requires var r := ListOf(lists, pid)[i]; Splits(r, startAddr, endAddr) ==> MaySplit(objects, r)
      modifies this`others, this`objects, this`lists, this`s, this`a, heap`totalFree, heap.mcb
      ensures Valid() && others <= old(others)
      ensures var list := ListOf(old(lists), pid);
        var cut := A.CutList(list[..i], A.Cut(list[i], startAddr, endAddr));
        && lists == old(lists)[pid := cut + list[i + 1..]] && next == |cut|
        && (Off(list[i], startAddr, endAddr) ==> objects == old(objects))
      ensures Thinned(old(a), a, pid, startAddr / PAGESIZE, endAddr / PAGESIZE)
    {
      hide Valid, Aligned, NoneMapped, Thinned, WithoutRange;
      var list := ListOf(lists, pid);
      var region := list[i];
      IsListed(pid, i);
      A.EndAligned(region, startAddr, endAddr);
      ThinnedNot(a, pid, startAddr / PAGESIZE, endAddr / PAGESIZE);
      assert list == list[..i] + [region] + list[i + 1..] && lists[pid := list] == lists;
      if region.startAddr >= startAddr && region.endAddr <= endAddr {
        NoneOfRegion(pageTable, pid, region, startAddr, endAddr);
        RangeInPages(region, startAddr, endAddr);
        ThinnedMore(a, a, pid, startAddr / PAGESIZE, endAddr / PAGESIZE, RegionOf(region).first, RegionOf(region).last);
        RemoveRegion(pid, i);   // vm_region_detach
        return i;
      } else if region.startAddr < startAddr && region.endAddr > startAddr && region.endAddr <= endAddr {
        CutEnd(pid, i, startAddr, endAddr);
        assert list[i := region.(endAddr := startAddr - 1)]
               == list[..i] + [region.(endAddr := startAddr - 1)] + list[i + 1..];
      } else if region.startAddr >= startAddr && region.startAddr < endAddr && region.endAddr > endAddr {
        CutStart(pid, i, startAddr, endAddr);
        assert list[i := High(region, endAddr)] == list[..i] + [High(region, endAddr)] + list[i + 1..];
      } else if region.startAddr < startAddr && region.endAddr > endAddr {
        CutMiddle(pid, i, startAddr, endAddr);
        var low, high := region.(endAddr := startAddr - 1), High(region, endAddr);
        assert [high] + list[i := low] == [high] + list[..i] + [low] + list[i + 1..];
        return i + 2;
      }
      return i + 1;
    }

    lemma IsListed(pid: nat, i: nat)
      requires Valid() && i < |ListOf(lists, pid)|
      ensures Aligned(ListOf(lists, pid)[i]) && pid in lists
    {
      ListedAt(lists, s.regions, pid, i);
    }

    // sys_munmap: the process no longer sees the pages in the range, and everybody sees all others as before. If the
    // range starts beyond userland, though, the kernel has unmapped itself.
    method Munmap(pid: nat, addr: nat, len: nat) returns (errno: nat)
      requires Valid() && addr < VmLists.WORD && len < VmLists.WORD
      requires !A.Refused(addr, len) ==>
                 AllMaySplit(objects, ListOf(lists, pid), addr,
                             (addr + A.RoundUp(len) + VmLists.WORD - 1) % VmLists.WORD)
      modifies this`others, this`objects, this`lists, this`pageTable, this`s, this`a, this`kernelWhole,
               heap`totalFree, heap.mcb
      ensures Valid() && others <= old(others)
      ensures kernelWhole == (old(kernelWhole) && (errno != 0 || P.UserAddress(kernel, addr)))
      ensures errno == if A.Refused(addr, len) then A.EINVAL else 0
      ensures errno != 0 ==> a == old(a) && lists == old(lists)
      ensures errno == 0 ==>
                var endAddr := (addr + A.RoundUp(len) + VmLists.WORD - 1) % VmLists.WORD;
                a == WithoutRange(old(a), pid, addr / PAGESIZE, endAddr / PAGESIZE)
      ensures errno == 0 ==>
                var last := if len == 0 then VmLists.WORD - 1 else addr + len - 1;
                NothingInside(a, pid, addr, last) && SameOutside(old(a), a, pid, addr, last)
      ensures errno == if addr % 4096 != 0 || (addr > 0 && (len == 0 || addr + len > VmLists.WORD)) then 22 else 0
      ensures forall q :: q != pid ==> ListOf(lists, q) == ListOf(old(lists), q)
    {
      hide Valid, AllMaySplit, WithoutRange, NothingInside, SameOutside, A.RoundUp;
      A.RefusedIs(addr, len);
      if addr % PAGESIZE != 0 { return A.EINVAL; }
      var startAddr := addr;
      var endAddr := (startAddr + A.RoundUp(len) + VmLists.WORD - 1) % VmLists.WORD;
      if endAddr < startAddr { return A.EINVAL; }
      A.LastPageIs(addr, len);
      UnmapAll(pid, startAddr, endAddr);
      WithoutShows(old(a), pid, startAddr, endAddr);
      WholePages(old(a), a, pid, startAddr, endAddr, if len == 0 then VmLists.WORD - 1 else addr + len - 1);
      return 0;
    }

    method UnmapAll(pid: nat, startAddr: nat, endAddr: nat)
      requires Valid() && A.OnPages(startAddr, endAddr) && AllMaySplit(objects, ListOf(lists, pid), startAddr, endAddr)
      modifies this`others, this`objects, this`lists, this`pageTable, this`s, this`a, this`kernelWhole,
               heap`totalFree, heap.mcb
      ensures Valid() && others <= old(others)
      ensures kernelWhole == (old(kernelWhole) && P.UserAddress(kernel, startAddr))
      ensures a == WithoutRange(old(a), pid, startAddr / PAGESIZE, endAddr / PAGESIZE)
      ensures forall q :: q != pid ==> ListOf(lists, q) == ListOf(old(lists), q)
    {
      hide Valid, NoneMapped, Thinned, Off, Splits, MaySplit, A.Cut, A.CutList, WithoutRange, Aligned;
      ghost var before, n: nat := ListOf(lists, pid), 0;
      var first, last := startAddr / PAGESIZE, endAddr / PAGESIZE;
      RegionsDisjoint(pid);
      UnmapPages(pid, startAddr, endAddr);
      ThinnedNot(a, pid, first, last);
      var i := 0;
      while i < |ListOf(lists, pid)|
        invariant Valid() && others <= old(others) && NoneMapped(pageTable, pid, first, last)
        invariant kernelWhole == (old(kernelWhole) && P.UserAddress(kernel, startAddr))
        invariant n <= |before| && 0 <= i <= |ListOf(lists, pid)| && ListOf(lists, pid)[i..] == before[n..]
        invariant forall j :: 0 <= j < i ==> Off(ListOf(lists, pid)[j], startAddr, endAddr)
        invariant forall j :: n <= j < |before| && Splits(before[j], startAddr, endAddr) ==>
                    MaySplit(objects, before[j])
        invariant Thinned(old(a), a, pid, first, last)
        invariant forall q :: q != pid ==> ListOf(lists, q) == ListOf(old(lists), q)
        decreases |before| - n
      {
        ghost var list, a1 := ListOf(lists, pid), a;
        assert list[i] == list[i..][0] && list[i + 1..] == list[i..][1..];
        IsListed(pid, i);
        CutListOff(list[..i], list[i], startAddr, endAddr);
        forall j | n < j < |before| && !Off(before[n], startAddr, endAddr)
          ensures !Splits(before[j], startAddr, endAddr)
        {
          OthersWhole(before, n, j, startAddr, endAddr);
        }
        i := UnmapRegion(pid, i, startAddr, endAddr);
        ThinnedTwice(old(a), a1, a, pid, first, last);
        n := n + 1;
      }
      NothingLeft(pid, startAddr, endAddr);
      ThinnedAll(old(a), a, pid, first, last);
    }

    lemma RegionsDisjoint(pid: nat)
      requires Valid()
      ensures A.Disjoint(ListOf(lists, pid)) && A.AllAligned(ListOf(lists, pid))
    {
      ListDisjoint(lists, s, a, pid);
    }

    lemma NothingLeft(pid: nat, startAddr: nat, endAddr: nat)
      requires Valid() && A.OnPages(startAddr, endAddr)
      requires forall i :: 0 <= i < |ListOf(lists, pid)| ==> Off(ListOf(lists, pid)[i], startAddr, endAddr)
      ensures forall e :: e in a && e.pid == pid ==> !(startAddr / PAGESIZE <= e.vp <= endAddr / PAGESIZE)
    {
      NoneLeft(lists, s, a, pid, startAddr, endAddr);
    }

    // ---------------------------------------------------------------- fork

    // The two shadow objects of vm_fork, before and after they are linked to the object they shadow.
    method TwoShadows() returns (t1: Option<ObjId>, t2: Option<ObjId>)
      requires HeapOk()
      modifies this`objects, heap, heap.mcb, heap.searchPos
      ensures (t1.Some? && t2.Some?) || !heap.CanServe(SIZEOF_OBJECT)
      ensures t1.Some? && t2.Some? ==>
                && HeapOk() && t1.value !in old(objects) && t2.value !in old(objects)
                && t1.value != t2.value && t1.value != 0 && t2.value != 0
                && objects == old(objects)[t1.value := VmObject(Shadow, 0, 0, 0, 0, None, 0)]
                                          [t2.value := VmObject(Shadow, 0, 0, 0, 0, None, 0)]
    {
      hide HeapOk;
      t2 := None;
      t1 := ObjectCreate(Shadow);
      if t1.None? { return; }
      t2 := ObjectCreate(Shadow);
    }

    method LinkShadows(o: ObjId, t1: ObjId, t2: ObjId, ghost before: Objects)
      requires HeapOk() && o in before && t1 !in before && t2 !in before && t1 != t2
      requires objects
               == before[t1 := VmObject(Shadow, 0, 0, 0, 0, None, 0)][t2 := VmObject(Shadow, 0, 0, 0, 0, None, 0)]
      modifies this`objects
      ensures HeapOk() && objects == ForkedObjects(before, o, t1, t2)
    {
      hide Coupled, ForkedObjects;
      ForkedStarts(heap.mcb[..], memory, before, objects, s.store.pages, s.store.mem, others, o, t1, t2);
      SetShadows(o, t1, t2, before);
    }

    method SetShadows(o: ObjId, t1: ObjId, t2: ObjId, ghost before: Objects)
      requires o in before && t1 !in before && t2 !in before && t1 != t2
      requires objects
               == before[t1 := VmObject(Shadow, 0, 0, 0, 0, None, 0)][t2 := VmObject(Shadow, 0, 0, 0, 0, None, 0)]
      modifies this`objects
      ensures objects == ForkedObjects(before, o, t1, t2)
    {
      objects := objects[t1 := objects[t1].(next := o)];
      objects := objects[t2 := objects[t2].(next := o)];
      if objects[o].kind == Shadow { objects := objects[o := objects[o].(ref1 := t1, ref2 := t2)]; }
      objects := objects[t2 := objects[t2].(refcount := objects[t2].refcount + 1)];
      objects := objects[t1 := objects[t1].(refcount := objects[t1].refcount + 1)];
      objects := objects[o := objects[o].(refcount := objects[o].refcount + 1)];
      assert objects.Keys == ForkedObjects(before, o, t1, t2).Keys;
      assert objects == ForkedObjects(before, o, t1, t2);
    }

    // The parent's region gets one shadow, a new region of the child the other, and nobody may write.
    method SplitRegion(parent: nat, child: nat, i: nat, t1: ObjId, t2: ObjId)
      requires i < |ListOf(lists, parent)| && parent != child
      modifies this`lists, this`pageTable, this`kernelWhole
      ensures
        var list := ListOf(old(lists), parent);
        && lists == old(lists)[parent := list[i := list[i].(source := t1, cow := true)]]
                              [child := [list[i].(source := t2, cow := true)] + ListOf(old(lists), child)]
        && pageTable == P.ProtectRange(old(pageTable), parent, kernel, list[i].startAddr, list[i].endAddr)
        && kernelWhole == (old(kernelWhole) && P.UserAddress(kernel, list[i].startAddr))
    {
      var list := ListOf(lists, parent);
      var region := list[i].(source := t1, cow := true);
      lists := lists[parent := list[i := region]];
      lists := lists[child := [region.(source := t2)] + ListOf(lists, child)];
      // pmap_markpages_cow
      pageTable := P.ProtectRange(pageTable, parent, kernel, region.startAddr, region.endAddr);
      kernelWhole := kernelWhole && P.UserAddress(kernel, region.startAddr);
    }

    // One round of vm_fork for a writable region.
    method ForkWritable(parent: nat, child: nat, i: nat, ghost all: bool)
      returns (ok: bool, ghost t1: ObjId, ghost t2: ObjId)
      requires Coupling() && ListsOk(lists, s.regions) && parent != child && 0 < kernel < P.ENTRIES
      requires pageTable == Shielded(s.pt, parent, kernel, all) && P.InUserland(s.pt, kernel)
      requires i < |ListOf(lists, parent)| && ListOf(lists, parent)[i].writable
      requires ListOf(lists, parent)[i].source in s.store.links && KeyOf(child, ListOf(lists, parent)[i]) !in s.regions
      modifies this`objects, this`lists, this`pageTable, this`s, this`kernelWhole, heap, heap.mcb, heap.searchPos
      ensures ok || !heap.CanServe(SIZEOF_OBJECT)
      ensures ok ==> ForkedOne(parent, child, i, t1, t2)
      ensures ok ==> Coupling() && ListsOk(lists, s.regions) && ForkedTables(parent, ListOf(old(lists), parent)[i], all)
    {
      hide Coupled, Mirror, ListsOk, Aligned, HeapOk, ForkedObjects, WriteProtected, ForkRegion, P.ProtectRange,
           Shielded, P.InUserland;
      var list := ListOf(lists, parent);
      var region := list[i];
      ghost var k := KeyOf(parent, region);
      ListedAt(lists, s.regions, parent, i);
      MirrorKeys(objects, s.store.links, s.refs);
      var tmpobj1, tmpobj2 := TwoShadows();
      if tmpobj1.None? || tmpobj2.None? { return false, 0, 0; }
      t1, t2 := tmpobj1.value, tmpobj2.value;
      LinkShadows(region.source, tmpobj1.value, tmpobj2.value, old(objects));
      SplitRegion(parent, child, i, tmpobj1.value, tmpobj2.value);
      ForkMirror(old(objects), s, k, child, t1, t2);
      ForkLists(old(lists), s.regions, parent, i, child, t1, t2);
      ForkedParts(s, k, child, t1, t2);
      ShieldedRound(s.pt, parent, kernel, region, all);
      SetForked(k, child, t1, t2);
      ok := true;
    }

    // Makes the state that of the model.
    ghost method SetForked(k: RegKey, child: nat, t1: ObjId, t2: ObjId)
      requires HeapOk() && k in s.regions && s.regions[k].source in s.store.links && s.regions[k].source in s.refs
      requires var s' := ForkRegion(s, k, child, t1, t2);
        s'.store.pages == s.store.pages && s'.store.mem == s.store.mem && Mirror(objects, s'.store.links, s'.refs)
      modifies this`s
      ensures Coupling() && k in old(s.regions) && old(s.regions)[k].source in old(s.store.links)
              && old(s.regions)[k].source in old(s.refs) && s == ForkRegion(old(s), k, child, t1, t2)
    {
      hide Coupled, Mirror, ForkRegion;
      s := ForkRegion(s, k, child, t1, t2);
    }

    // The state is what the model's fork of region i makes of it.
    twostate predicate ForkedOne(parent: nat, child: nat, i: nat, t1: ObjId, t2: ObjId)
      reads this
    {
      var list := ListOf(old(lists), parent);
      && i < |list|
      && var k := KeyOf(parent, list[i]);
         && k in old(s.regions) && old(s.regions)[k] == RegionOf(list[i])
         && list[i].source in old(s.store.links) && list[i].source in old(s.refs)
         && t1 !in old(s.store.links) && t2 !in old(s.store.links) && t1 != t2 && t1 != 0 && t2 != 0
         && s == ForkRegion(old(s), k, child, t1, t2)
         && SameOutline(list, ListOf(lists, parent))
         && forall q :: q != parent && q != child ==> ListOf(lists, q) == ListOf(old(lists), q)
    }

    // The page tables after a round.
    twostate predicate ForkedTables(parent: nat, r: VmRegion, all: bool)
      reads this
    {
      && pageTable == Shielded(s.pt, parent, kernel, all || Beyond(r, kernel))
      && kernelWhole == (old(kernelWhole) && !Beyond(r, kernel))
    }

    // One round of vm_fork.
    method ForkRound(parent: nat, child: nat, i: nat, ghost all: bool)
      returns (ok: bool, ghost t1: ObjId, ghost t2: ObjId)
      requires Coupling() && ListsOk(lists, s.regions) && parent != child && 0 < kernel < P.ENTRIES
      requires pageTable == Shielded(s.pt, parent, kernel, all) && P.InUserland(s.pt, kernel)
      requires i < |ListOf(lists, parent)|
      requires ListOf(lists, parent)[i].source in s.store.links && KeyOf(child, ListOf(lists, parent)[i]) !in s.regions
      modifies this`objects, this`lists, this`pageTable, this`s, this`kernelWhole, heap, heap.mcb, heap.searchPos
      ensures ok || !heap.CanServe(SIZEOF_OBJECT)
      ensures ok ==> ForkedOne(parent, child, i, t1, t2)
      ensures ok ==> Coupling() && ListsOk(lists, s.regions) && ForkedTables(parent, ListOf(old(lists), parent)[i], all)
    {
      hide Coupling, ListsOk, Aligned, Shielded, P.InUserland;
      var region := ListOf(lists, parent)[i];
      if !region.writable {
        ListedAt(lists, s.regions, parent, i);
        ObjectMirrors(region.source);
        t1, t2 := Unused(s.store.links);
        ForkShares(s, KeyOf(parent, region), child, t1, t2);
        RegionAttach(child, region);
        ok := true;
      } else {
        ok, t1, t2 := ForkWritable(parent, child, i, all);
      }
    }

    // The child gets a copy of all that the parent sees. If the parent has a writable region beyond userland, the
    // kernel has taken its own right to write.
    method VmFork(parent: nat, child: nat) returns (ok: bool)
      requires Valid() && parent != child && ListOf(lists, child) == []
      requires forall e :: e in pageTable ==> e.pid != child
      modifies this`objects, this`lists, this`pageTable, this`s, this`a, this`kernelWhole, heap, heap.mcb,
               heap.searchPos
      ensures ok || !heap.CanServe(SIZEOF_OBJECT)
      ensures ok ==> Valid() && a == old(a) + CopiedCells(old(a), parent, child) && HasCopy(old(a), a, parent, child)
      ensures ok ==> forall q :: q != parent && q != child ==> ListOf(lists, q) == ListOf(old(lists), q)
      ensures ok ==> SameOutline(ListOf(old(lists), parent), ListOf(lists, parent))
      ensures ok ==>
                kernelWhole == (old(kernelWhole) && forall r :: r in ListOf(old(lists), parent) ==> !Beyond(r, kernel))
    {
      hide Coupling, ListsOk, Inv, Used, Forking, ForkRegion, Refines, CopiedCells, FirstPages, Shielded, P.InUserland,
           Beyond, HasCopy;
      NoRegionsNoCells(lists, s, a, child);
      CopiedShows(a, parent, child);
      ghost var s0, list0 := s, ListOf(lists, parent);
      ghost var done: set<nat> := FirstPages(list0, 0);
      ghost var all := false;
      StartFork(lists, s, a, parent, child);
      NotShielded(s.pt, parent, kernel);
      for i := 0 to |ListOf(lists, parent)|
        invariant Coupling() && ListsOk(lists, s.regions) && s.vmobj == s0.vmobj && a == old(a)
        invariant pageTable == Shielded(s.pt, parent, kernel, all) && P.InUserland(s.pt, kernel)
        invariant all == exists j :: 0 <= j < i && Beyond(list0[j], kernel)
        invariant kernelWhole == (old(kernelWhole) && !all)
        invariant Inv(s) && Used(s) && Forking(s0, parent, child, done, s) && done == FirstPages(list0, i)
        invariant SameOutline(list0, ListOf(lists, parent))
        invariant forall q :: q != parent && q != child ==> ListOf(lists, q) == ListOf(old(lists), q)
      {
        ghost var s1, list1 := s, ListOf(lists, parent);
        ghost var x := list0[i].startAddr / PAGESIZE;
        NextPage(old(lists), s0.regions, parent, i);
        ForkReady(lists, s0, s, parent, child, done, i, x);
        ghost var t1, t2;
        ok, t1, t2 := ForkRound(parent, child, i, all);
        if !ok { return; }
        ForkStepKeeps(s0, parent, child, done, s1, x, t1, t2);
        ForkOther(s1, RegKey(parent, x), child, t1, t2);
        SameKeysInUserland(s1.pt, s.pt, kernel);
        SameBeyond(list0[i], list1[i], kernel);
        all := all || Beyond(list0[i], kernel);
        done := FirstPages(list0, i + 1);
        FirstPagesStep(list0, i);
        SameOutlineTransitive(list0, list1, ListOf(lists, parent));
      }
      EndFork(old(lists), s0, a, parent, child, done, s);
      a := a + CopiedCells(a, parent, child);
      SetTables(parent, all);
      ok := true;
    }

    // The state's page tables are what the rounds have left.
    ghost method SetTables(parent: nat, all: bool)
      requires Coupling() && Good(s, a) && pageTable == Shielded(s.pt, parent, kernel, all)
               && P.InUserland(s.pt, kernel)
      requires forall k :: k in s.regions && k.pid == parent ==> !InPlace(s.regions[k])
      modifies this`s
      ensures Coupling() && Good(s, a) && s == old(s).(pt := pageTable) && P.InUserland(pageTable, kernel)
    {
      hide Coupled, Mirror, Good, Shielded;
      ShieldedGood(s, a, parent, kernel, all);
      s := s.(pt := pageTable);
    }

    // ---------------------------------------------------------------- loads and stores

    lemma MappedFrame(e: PageKey)
      requires Valid() && e in pageTable
      ensures pageTable[e].frame < |memory| && e in a && a[e].content == Some(memory[pageTable[e].frame])
      ensures memory[pageTable[e].frame] == Contents(s.store.mem, pageTable[e].frame)
    {
      hide Good;
      var k := MappedRegion(s, a, e);
      PageInMemory(s.regions[k].source, PageNr(s.regions[k], e.vp));
    }

    // A load that the page table allows reads what the process sees.
    method Load(pid: nat, va: nat) returns (b: Byte)
      requires Valid() && PageKey(pid, va / PAGESIZE) in pageTable
      ensures var e := PageKey(pid, va / PAGESIZE);
        e in a && a[e].content.Some? && b == a[e].content.value[va % PAGESIZE]
    {
      MappedFrame(PageKey(pid, va / PAGESIZE));
      b := memory[pageTable[PageKey(pid, va / PAGESIZE)].frame][va % PAGESIZE];
    }

    // A store that it allows changes one byte of one page of one process, and no other's.
    method Store(pid: nat, va: nat, b: Byte)
      requires Valid() && PageKey(pid, va / PAGESIZE) in pageTable && pageTable[PageKey(pid, va / PAGESIZE)].writable
      modifies this`memory, this`s, this`a
      ensures Valid()
      ensures ByteStored(old(a), PageKey(pid, va / PAGESIZE), va % PAGESIZE, b, a)
    {
      hide Coupled, Mirror, ListsOk, Good;
      ghost var e := PageKey(pid, va / PAGESIZE);
      var off := va % PAGESIZE;
      var f := pageTable[PageKey(pid, va / PAGESIZE)].frame;
      MappedFrame(e);
      StoreStep(s, a, e, off, b);
      WrittenPage(heap.mcb[..], memory, objects, s.store.pages, s.store.mem, others, f, memory[f][off := b]);
      memory := memory[f := memory[f][off := b]];
      s := StoreByte(s, f, off, b);
      a := a[e := a[e].(content := Some(a[e].content.value[off := b]))];
    }

    // When the last process has gone, the heap holds cached files only: their objects and pages, and what was
    // never this system's.
    lemma OnlyFilesRemain(p: nat)
      requires Valid() && (forall pid: nat :: ListOf(lists, pid) == []) && M.BlockAt(heap.mcb[..], p).Some?
      ensures || p in others
              || (p in objects && objects[p].kind == File)
              || exists o :: o in objects && objects[o].kind == File && o in s.store.pages && p % PAGESIZE == 0
                             && p / PAGESIZE in Frames(s.store.pages[o])
    {
      hide Good, M.BlockAt, ListsOk, ListOf;
      forall o | o in objects ensures objects[o].kind == File {
        ObjectIs(o) by { MirrorKeys(objects, s.store.links, s.refs); }
        OnlyFileObjects(lists, s, a, o);
      }
      if p !in others && p !in objects {
        assert OnSomeChain(s.store.pages, p / PAGESIZE);
        var o :| o in s.store.pages && p / PAGESIZE in Frames(s.store.pages[o]);
      }
    }
  }
}
