/** How the virtual memory system sits in kernel memory: page chains are threaded through the MCB array, objects and
    pages are blocks of the allocator, and nothing else is held. */
module VmThreads {
  import opened Basics
  import opened VmObjects
  import opened VmModel
  import M = Mcbs

  // sizeof (struct vm_object) is 44, for which malloc reserves 128 bytes.
  const SIZEOF_OBJECT := 44
  const OBJECT_BLOCK := 128

  // start is the field page_chain_start.
  datatype VmObject = VmObject(kind: Kind, next: ObjId, refcount: int, ref1: ObjId, ref2: ObjId, vnode: Option<nat>,
                               start: nat)

  type Objects = map<ObjId, VmObject>

  // The chain that starts at MCB index `start` and is linked through the next fields. Index 0 ends a chain.
  predicate Threaded(m: M.Mem, start: nat, chain: seq<PageRef>)
    decreases |chain|
  {
    if chain == [] then start == 0
    else
      && start == chain[0].frame && 0 < start < |m|
      && m[start].size == M.VMOBJECT_PAGE && m[start].pageNr == chain[0].nr
      && Threaded(m, m[start].next, chain[1..])
  }

  predicate Holds(memory: seq<Page>, chain: seq<PageRef>, mem: map<Frame, Page>) {
    forall f :: f in Frames(chain) ==> f < |memory| && f in mem && memory[f] == mem[f]
  }

  // Page numbers are of type size_t.
  const MAX_PAGE_NR := 0xffff_ffff

  predicate Numbered(chain: seq<PageRef>) {
    forall p :: p in chain ==> p.nr <= MAX_PAGE_NR
  }

  predicate Held(m: M.Mem, memory: seq<Page>, start: nat, chain: seq<PageRef>, mem: map<Frame, Page>) {
    Threaded(m, start, chain) && Holds(memory, chain, mem) && Numbered(chain)
  }

  predicate OnSomeChain(pages: Pages, f: Frame) {
    exists o :: o in pages && f in Frames(pages[o])
  }

  // Every live block belongs to an object, a page chain, or somebody else.
  ghost predicate NoStray(m: M.Mem, objects: Objects, pages: Pages, others: set<nat>) {
    forall p: nat :: M.BlockAt(m, p).Some? ==>
                       p in objects || p in others || (p % PAGESIZE == 0 && OnSomeChain(pages, p / PAGESIZE))
  }

  predicate ObjectsHeld(m: M.Mem, memory: seq<Page>, objects: Objects, pages: Pages, mem: map<Frame, Page>) {
    forall o {:trigger ChainOf(pages, o)} {:trigger objects[o]} :: o in objects ==>
      M.BlockAt(m, o) == Some(OBJECT_BLOCK) && Held(m, memory, objects[o].start, ChainOf(pages, o), mem)
  }

  ghost predicate Coupled(m: M.Mem, memory: seq<Page>, objects: Objects, pages: Pages, mem: map<Frame, Page>,
                          others: set<nat>) {
    && |memory| == |m| && pages.Keys <= objects.Keys && FramesDistinct(pages)
    && ObjectsHeld(m, memory, objects, pages, mem)
    && NoStray(m, objects, pages, others)
  }

  // ---------------------------------------------------------------- threads

  lemma {:induction false} ThreadedSame(m: M.Mem, m': M.Mem, start: nat, chain: seq<PageRef>)
    requires Threaded(m, start, chain)
    requires forall f :: f in Frames(chain) && f < |m| ==> f < |m'| && m'[f] == m[f]
    ensures Threaded(m', start, chain)
    decreases |chain|
  {
    if chain != [] { ThreadedSame(m, m', m[start].next, chain[1..]); }
  }

  lemma {:induction false} ThreadedFrames(m: M.Mem, start: nat, chain: seq<PageRef>, f: Frame)
    requires Threaded(m, start, chain) && f in Frames(chain)
    ensures 0 < f < |m| && m[f].size == M.VMOBJECT_PAGE
    decreases |chain|
  {
    if f != chain[0].frame { ThreadedFrames(m, m[start].next, chain[1..], f); }
  }

  lemma ChainFrames(m: M.Mem, memory: seq<Page>, objects: Objects, pages: Pages, mem: map<Frame, Page>, f: Frame)
    requires ObjectsHeld(m, memory, objects, pages, mem) && pages.Keys <= objects.Keys && OnSomeChain(pages, f)
    ensures 0 < f < |m| && m[f].size == M.VMOBJECT_PAGE
  {
    var o :| o in pages && f in Frames(pages[o]);
    assert ChainOf(pages, o) == pages[o];
    ThreadedFrames(m, objects[o].start, pages[o], f);
  }

  lemma {:induction false} FramesAppend(a: seq<PageRef>, b: seq<PageRef>)
    ensures Frames(a + b) == Frames(a) + Frames(b)
    ensures NoDup(a + b) <==> NoDup(a) && NoDup(b) && Frames(a) !! Frames(b)
  {
    if a == [] {
      assert a + b == b;
    } else {
      FramesAppend(a[1..], b);
      assert (a + b)[1..] == a[1..] + b;
    }
  }

  // Taking the element after `pre` out of a chain, by changing the next field of the element before it.
  lemma {:induction false} Unlink(m: M.Mem, start: nat, pre: seq<PageRef>, x: PageRef, post: seq<PageRef>)
    requires Threaded(m, start, pre + [x] + post) && NoDup(pre + [x] + post) && pre != []
    ensures pre[|pre| - 1].frame < |m| && x.frame < |m|
    ensures
      var last := pre[|pre| - 1].frame;
      Threaded(m[last := m[last].(next := m[x.frame].next)], start, pre + post)
    decreases |pre|
  {
    var whole, last := pre + [x] + post, pre[|pre| - 1].frame;
    if |pre| == 1 {
      assert whole[1..] == [x] + post && whole[1..][1..] == post && (pre + post)[1..] == post;
      FramesCons(x, post);
      ThreadedSame(m, m[last := m[last].(next := m[x.frame].next)], m[x.frame].next, post);
    } else {
      assert whole[1..] == pre[1..] + [x] + post && (pre + post)[1..] == pre[1..] + post;
      Unlink(m, m[start].next, pre[1..], x, post);
      LastFrame(pre[1..], [x] + post);
      assert pre[1..] + ([x] + post) == whole[1..];
    }
  }

  lemma LastFrame(pre: seq<PageRef>, post: seq<PageRef>)
    requires pre != []
    ensures pre[|pre| - 1].frame in Frames(pre + post)
  {
    assert (pre + post)[|pre| - 1] == pre[|pre| - 1];
    FrameIn(pre + post, pre[|pre| - 1]);
  }

  // MCB index after k elements of a chain.
  lemma {:induction false} ThreadAt(m: M.Mem, start: nat, pre: seq<PageRef>, post: seq<PageRef>) returns (i: nat)
    requires Threaded(m, start, pre + post)
    ensures Threaded(m, i, post)
    ensures pre == [] ==> i == start
    ensures pre != [] ==> pre[|pre| - 1].frame < |m| && i == m[pre[|pre| - 1].frame].next
    decreases |pre|
  {
    hide Frames, NoDup;
    if pre == [] {
      assert pre + post == post;
      i := start;
    } else {
      assert (pre + post)[1..] == pre[1..] + post && (pre + post)[0] == pre[0];
      i := ThreadAt(m, m[start].next, pre[1..], post);
      assert |pre| > 1 ==> pre[1..][|pre| - 2] == pre[|pre| - 1];
    }
  }

  // ---------------------------------------------------------------- pages as blocks

  lemma FreedPage(m: M.Mem, f: Frame)
    requires f < |m| && (m[f].size == PAGESIZE || m[f].size == M.VMOBJECT_PAGE)
    ensures M.BlockAt(m, f * PAGESIZE) == Some(PAGESIZE) && f * PAGESIZE / PAGESIZE == f && f * PAGESIZE % PAGESIZE == 0
    ensures M.Freed(m, f * PAGESIZE) == m[f := m[f].(size := M.FREE, bitmap := {})]
  {}

  // A page fresh from malloc.
  lemma NewPage(m: M.Mem, p: nat)
    requires M.WellFormed(m) && M.CanAlloc(m, p, PAGESIZE)
    ensures var i := p / PAGESIZE;
      && p == i * PAGESIZE && 0 < i < |m| && m[i].size == M.FREE && m[i].bitmap == {}
      && M.Allocated(m, p, PAGESIZE) == m[i := m[i].(size := PAGESIZE)]
  {
    M.EntryAt(m, p / PAGESIZE);
  }

  // Allocation changes no page of a chain; neither does freeing a slot.
  lemma AllocLeavesPages(m: M.Mem, p: nat, b: nat, f: Frame)
    requires M.WellFormed(m) && M.CanAlloc(m, p, b) && f < |m|
             && (m[f].size == PAGESIZE || m[f].size == M.VMOBJECT_PAGE)
    ensures f < |M.Allocated(m, p, b)| && M.Allocated(m, p, b)[f] == m[f] && p / PAGESIZE != f
  {
    if !M.IsSlotSize(b) { M.RunSizeOf(b / PAGESIZE); }
  }

  lemma FreeSlotLeavesPages(m: M.Mem, p: nat, f: Frame)
    requires M.WellFormed(m) && M.BlockAt(m, p) == Some(OBJECT_BLOCK) && f < |m| && m[f].size == M.VMOBJECT_PAGE
    ensures p / PAGESIZE + OBJECT_BLOCK / PAGESIZE <= |m|
    ensures f < |M.Freed(m, p)| && M.Freed(m, p)[f] == m[f]
  {
    M.BlockExtent(m, p);
  }

  // ---------------------------------------------------------------- what each change keeps

  lemma HeldSame(m: M.Mem, m': M.Mem, memory: seq<Page>, memory': seq<Page>, start: nat, chain: seq<PageRef>,
                 mem: map<Frame, Page>, mem': map<Frame, Page>)
    requires Held(m, memory, start, chain, mem) && |memory'| == |memory|
    requires forall f :: f in Frames(chain) && f < |m| ==> f < |m'| && m'[f] == m[f]
    requires forall f :: f in Frames(chain) && f < |memory| && f in mem ==>
               memory'[f] == memory[f] && f in mem' && mem'[f] == mem[f]
    ensures Held(m', memory', start, chain, mem')
  {
    ThreadedSame(m, m', start, chain);
  }

  lemma ObjectAt(m: M.Mem, memory: seq<Page>, objects: Objects, pages: Pages, mem: map<Frame, Page>, o: ObjId)
    requires ObjectsHeld(m, memory, objects, pages, mem) && o in objects
    ensures M.BlockAt(m, o) == Some(OBJECT_BLOCK) && Held(m, memory, objects[o].start, ChainOf(pages, o), mem)
  {
    assert ChainOf(pages, o) == ChainOf(pages, o);
  }

  lemma MallocedObject(m: M.Mem, memory: seq<Page>, objects: Objects, pages: Pages, mem: map<Frame, Page>,
                       others: set<nat>, p: nat, r: VmObject)
    requires M.WellFormed(m) && M.CanAlloc(m, p, OBJECT_BLOCK) && r.start == 0
    requires Coupled(m, memory, objects, pages, mem, others)
    ensures p !in objects && p != 0
    ensures Coupled(M.Allocated(m, p, OBJECT_BLOCK), memory, objects[p := r], pages, mem, others)
  {
    hide M.WellFormed, M.FreeBytes, M.BlockAt, M.Freed, M.Allocated, Threaded, FramesDistinct, Holds;
    var m', objects' := M.Allocated(m, p, OBJECT_BLOCK), objects[p := r];
    M.AllocatedKeeps(m, p, OBJECT_BLOCK);
    PageZero(m, p, OBJECT_BLOCK);
    if p in objects { ObjectAt(m, memory, objects, pages, mem, p); }
    forall o | o in objects'
      ensures M.BlockAt(m', o) == Some(OBJECT_BLOCK) && Held(m', memory, objects'[o].start, ChainOf(pages, o), mem)
    {
      if o == p {
        EmptyHeld(m', memory, mem);
      } else {
        ObjectAt(m, memory, objects, pages, mem, o);
        AllocHeld(m, p, OBJECT_BLOCK, memory, objects[o].start, ChainOf(pages, o), mem);
      }
    }
  }

  lemma EmptyHeld(m: M.Mem, memory: seq<Page>, mem: map<Frame, Page>)
    ensures Held(m, memory, 0, [], mem)
  {}

  lemma PageZero(m: M.Mem, p: nat, b: nat)
    requires M.WellFormed(m) && M.CanAlloc(m, p, b)
    ensures p != 0 && p / PAGESIZE != 0
  {
    hide M.Allocated;
  }

  lemma AllocHeld(m: M.Mem, p: nat, b: nat, memory: seq<Page>, start: nat, chain: seq<PageRef>, mem: map<Frame, Page>)
    requires M.WellFormed(m) && M.CanAlloc(m, p, b) && Held(m, memory, start, chain, mem)
    ensures Held(M.Allocated(m, p, b), memory, start, chain, mem)
  {
    hide M.WellFormed, M.CanAlloc, M.Allocated, Threaded;
    forall f | f in Frames(chain) ensures f < |M.Allocated(m, p, b)| && f < |m| && M.Allocated(m, p, b)[f] == m[f] {
      ThreadedFrames(m, start, chain, f);
      AllocLeavesPages(m, p, b, f);
    }
    HeldSame(m, M.Allocated(m, p, b), memory, memory, start, chain, mem, mem);
  }

  lemma MallocedPage(m: M.Mem, memory: seq<Page>, objects: Objects, pages: Pages, mem: map<Frame, Page>,
                     others: set<nat>, p: nat)
    requires M.WellFormed(m) && M.CanAlloc(m, p, PAGESIZE) && Coupled(m, memory, objects, pages, mem, others)
    ensures Coupled(M.Allocated(m, p, PAGESIZE), memory, objects, pages, mem, others + {p})
    ensures p !in objects && FreshFrame(pages, p / PAGESIZE)
  {
    hide M.WellFormed, M.FreeBytes, M.BlockAt, M.Freed, M.Allocated, M.CanAlloc, Threaded, FramesDistinct, Holds;
    var m' := M.Allocated(m, p, PAGESIZE);
    M.AllocatedKeeps(m, p, PAGESIZE);
    if p in objects { ObjectAt(m, memory, objects, pages, mem, p); }
    forall o | o in objects
      ensures M.BlockAt(m', o) == Some(OBJECT_BLOCK) && Held(m', memory, objects[o].start, ChainOf(pages, o), mem)
    {
      ObjectAt(m, memory, objects, pages, mem, o);
      AllocHeld(m, p, PAGESIZE, memory, objects[o].start, ChainOf(pages, o), mem);
    }
    NewPage(m, p);
    if OnSomeChain(pages, p / PAGESIZE) { ChainFrames(m, memory, objects, pages, mem, p / PAGESIZE); }
  }

  // A page on no chain may be marked, and written.
  lemma MarkedPage(m: M.Mem, memory: seq<Page>, objects: Objects, pages: Pages, mem: map<Frame, Page>,
                   others: set<nat>, i: Frame, e: M.Mcb, c: Page)
    requires M.WellFormed(m) && i < |m| && FreshFrame(pages, i) && Coupled(m, memory, objects, pages, mem, others)
    requires m[i].size == PAGESIZE || m[i].size == M.VMOBJECT_PAGE
    requires e == m[i] || (e.size == M.VMOBJECT_PAGE && e.bitmap == {})
    ensures M.WellFormed(m[i := e]) && M.FreeBytes(m[i := e]) == M.FreeBytes(m)
    ensures Coupled(m[i := e], memory[i := c], objects, pages, mem, others)
  {
    hide M.WellFormed, M.FreeBytes, M.BlockAt, Threaded, FramesDistinct;
    var m' := m[i := e];
    if e == m[i] { assert m' == m; } else { M.VmPageKeeps(m, i, e); }
    forall o | o in objects
      ensures M.BlockAt(m', o) == Some(OBJECT_BLOCK)
      ensures Held(m', memory[i := c], objects[o].start, ChainOf(pages, o), mem)
    {
      ObjectAt(m, memory, objects, pages, mem, o);
      HeldSame(m, m', memory, memory[i := c], objects[o].start, ChainOf(pages, o), mem, mem);
    }
  }

  // Such a page becomes the first of the chain of object t.
  lemma LinkedPage(m: M.Mem, memory: seq<Page>, objects: Objects, pages: Pages, mem: map<Frame, Page>,
                   others: set<nat>, i: Frame, nr: nat, t: ObjId)
    requires M.WellFormed(m) && 0 < i < |m| && FreshFrame(pages, i) && t in objects
    requires (m[i].size == PAGESIZE || m[i].size == M.VMOBJECT_PAGE) && nr <= MAX_PAGE_NR
    requires Coupled(m, memory, objects, pages, mem, others + {i * PAGESIZE})
    ensures
      var m' := m[i := M.Mcb(M.VMOBJECT_PAGE, {}, nr, objects[t].start)];
      && M.WellFormed(m') && M.FreeBytes(m') == M.FreeBytes(m)
      && Coupled(m', memory, objects[t := objects[t].(start := i)], Pushed(pages, t, PageRef(nr, i)),
                 mem[i := memory[i]], others)
  {
    hide M.WellFormed, M.FreeBytes, M.BlockAt, Threaded, FramesDistinct, NoStray;
    var e := M.Mcb(M.VMOBJECT_PAGE, {}, nr, objects[t].start);
    var m', objects', pages', mem' := m[i := e], objects[t := objects[t].(start := i)],
      Pushed(pages, t, PageRef(nr, i)),
                                      mem[i := memory[i]];
    M.VmPageKeeps(m, i, e);
    forall o | o in objects'
      ensures M.BlockAt(m', o) == Some(OBJECT_BLOCK) && Held(m', memory, objects'[o].start, ChainOf(pages', o), mem')
    {
      ObjectAt(m, memory, objects, pages, mem, o);
      HeldSame(m, m', memory, memory, objects[o].start, ChainOf(pages, o), mem, mem');
      if o == t { PushHeld(m', memory, objects[t].start, ChainOf(pages, t), mem', nr, i); }
    }
    PushDistinct(pages, t, PageRef(nr, i));
    PushNoStray(m, m', objects, objects', pages, others, i, nr, t);
  }

  lemma PushHeld(m: M.Mem, memory: seq<Page>, start: nat, chain: seq<PageRef>, mem: map<Frame, Page>, nr: nat, i: Frame)
    requires Held(m, memory, start, chain, mem) && 0 < i < |m| && i < |memory| && i in mem && mem[i] == memory[i]
    requires m[i] == M.Mcb(M.VMOBJECT_PAGE, {}, nr, start) && nr <= MAX_PAGE_NR
    ensures Held(m, memory, i, [PageRef(nr, i)] + chain, mem)
  {
    FramesCons(PageRef(nr, i), chain);
    assert ([PageRef(nr, i)] + chain)[1..] == chain;
  }

  lemma PushDistinct(pages: Pages, t: ObjId, p: PageRef)
    requires FramesDistinct(pages) && FreshFrame(pages, p.frame)
    ensures FramesDistinct(Pushed(pages, t, p))
  {
    FramesCons(p, ChainOf(pages, t));
  }

  lemma PushNoStray(m: M.Mem, m': M.Mem, objects: Objects, objects': Objects, pages: Pages, others: set<nat>,
                    i: Frame, nr: nat, t: ObjId)
    requires NoStray(m, objects, pages, others + {i * PAGESIZE}) && objects'.Keys == objects.Keys
    requires forall p: nat :: M.BlockAt(m', p) == M.BlockAt(m, p)
    ensures NoStray(m', objects', Pushed(pages, t, PageRef(nr, i)), others)
  {
    hide M.BlockAt;
    var pages' := Pushed(pages, t, PageRef(nr, i));
    FramesCons(PageRef(nr, i), ChainOf(pages, t));
    forall p: nat | M.BlockAt(m', p).Some? && p !in objects' && p !in others
      ensures p % PAGESIZE == 0 && OnSomeChain(pages', p / PAGESIZE)
    {
      if p == i * PAGESIZE {
        assert p / PAGESIZE == i && i in Frames(pages'[t]);
      } else {
        var o :| o in pages && p / PAGESIZE in Frames(pages[o]);
        assert o in pages' && p / PAGESIZE in Frames(pages'[o]);
      }
    }
  }

  // ---------------------------------------------------------------- taking pages off chains

  // The MCB array and the object table after x, found behind `pre`, is unlinked from the chain of o.
  function UnlinkedMcbs(m: M.Mem, pre: seq<PageRef>, x: PageRef): M.Mem
    requires x.frame < |m| && (pre != [] ==> pre[|pre| - 1].frame < |m|)
  {
    if pre == [] then m
    else m[pre[|pre| - 1].frame := m[pre[|pre| - 1].frame].(next := m[x.frame].next)]
  }

  function UnlinkedObjects(m: M.Mem, objects: Objects, o: ObjId, pre: seq<PageRef>, x: PageRef): Objects
    requires o in objects && x.frame < |m|
  {
    if pre == [] then objects[o := objects[o].(start := m[x.frame].next)] else objects
  }

  lemma ChainBounds(m: M.Mem, start: nat, pre: seq<PageRef>, x: PageRef, post: seq<PageRef>)
    requires Threaded(m, start, pre + [x] + post)
    ensures 0 < x.frame < |m| && m[x.frame].size == M.VMOBJECT_PAGE && m[x.frame].pageNr == x.nr
    ensures Threaded(m, m[x.frame].next, post)
    ensures pre == [] ==> start == x.frame
    ensures pre != [] ==> pre[|pre| - 1].frame < |m| && m[pre[|pre| - 1].frame].size == M.VMOBJECT_PAGE
                          && m[pre[|pre| - 1].frame].next == x.frame
  {
    assert pre + [x] + post == pre + ([x] + post);
    var i := ThreadAt(m, start, pre, [x] + post);
    assert ([x] + post)[0] == x && ([x] + post)[1..] == post;
    if pre != [] {
      LastFrame(pre, [x] + post);
      ThreadedFrames(m, start, pre + ([x] + post), pre[|pre| - 1].frame);
    }
  }

  lemma UnlinkThreads(m: M.Mem, start: nat, pre: seq<PageRef>, x: PageRef, post: seq<PageRef>)
    requires Threaded(m, start, pre + [x] + post) && NoDup(pre + [x] + post)
    ensures x.frame < |m| && (pre != [] ==> pre[|pre| - 1].frame < |m|)
    ensures Threaded(UnlinkedMcbs(m, pre, x), if pre == [] then m[x.frame].next else start, pre + post)
  {
    ChainBounds(m, start, pre, x, post);
    if pre == [] { assert pre + post == post; } else { Unlink(m, start, pre, x, post); }
  }

  lemma UnlinkFrames(pages: Pages, o: ObjId, pre: seq<PageRef>, x: PageRef, post: seq<PageRef>)
    requires FramesDistinct(pages) && o in pages && pages[o] == pre + [x] + post
    ensures FramesDistinct(pages[o := pre + post]) && FreshFrame(pages[o := pre + post], x.frame)
    ensures Frames(pages[o]) == Frames(pre + post) + {x.frame}
    ensures pre != [] ==> pre[|pre| - 1].frame in Frames(pages[o]) && pre[|pre| - 1].frame != x.frame
  {
    FramesAppend(pre, [x] + post);
    FramesAppend(pre, post);
    FramesCons(x, post);
    assert pre + [x] + post == pre + ([x] + post);
    if pre != [] {
      LastFrame(pre, []);
      assert pre + [] == pre;
    }
  }

  lemma UnlinkedWellFormed(m: M.Mem, pre: seq<PageRef>, x: PageRef)
    requires M.WellFormed(m) && x.frame < |m|
    requires pre != [] ==> pre[|pre| - 1].frame < |m| && m[pre[|pre| - 1].frame].size == M.VMOBJECT_PAGE
    ensures var m' := UnlinkedMcbs(m, pre, x);
      && M.WellFormed(m') && M.FreeBytes(m') == M.FreeBytes(m) && |m'| == |m|
      && (forall p: nat :: M.BlockAt(m', p) == M.BlockAt(m, p))
  {
    hide M.WellFormed, M.FreeBytes, M.BlockAt;
    if pre != [] {
      var last := pre[|pre| - 1].frame;
      M.EntryAt(m, last);
      M.VmPageKeeps(m, last, m[last].(next := m[x.frame].next));
    }
  }

  // Page x is where the object, or the page before it, leads.
  predicate MayUnlink(m: M.Mem, objects: Objects, o: ObjId, pre: seq<PageRef>, x: PageRef) {
    && 0 < x.frame < |m| && m[x.frame].size == M.VMOBJECT_PAGE && m[x.frame].pageNr == x.nr
    && o in objects && (pre == [] ==> objects[o].start == x.frame)
    && (pre != [] ==> var prev := pre[|pre| - 1].frame; prev < |m| && m[prev].next == x.frame && prev != x.frame)
  }

  // When it has been taken out, all chains are whole, and it is on none.
  ghost predicate AfterUnlink(m: M.Mem, memory: seq<Page>, objects: Objects, pages: Pages, mem: map<Frame, Page>,
                              others: set<nat>, o: ObjId, pre: seq<PageRef>, x: PageRef, post: seq<PageRef>)
    requires MayUnlink(m, objects, o, pre, x)
  {
    var m', objects', pages' := UnlinkedMcbs(m, pre, x), UnlinkedObjects(m, objects, o, pre, x), pages[o := pre + post];
    && M.WellFormed(m') && M.FreeBytes(m') == M.FreeBytes(m) && FreshFrame(pages', x.frame)
    && Coupled(m', memory, objects', pages', mem, others + {x.frame * PAGESIZE})
    && x.frame in mem && x.frame < |memory| && memory[x.frame] == mem[x.frame] && x.nr <= MAX_PAGE_NR
  }

  lemma Unlinked(m: M.Mem, memory: seq<Page>, objects: Objects, pages: Pages, mem: map<Frame, Page>, others: set<nat>,
                 o: ObjId, pre: seq<PageRef>, x: PageRef, post: seq<PageRef>)
    requires M.WellFormed(m) && Coupled(m, memory, objects, pages, mem, others)
    requires o in pages && o in objects && pages[o] == pre + [x] + post
    ensures MayUnlink(m, objects, o, pre, x) && AfterUnlink(m, memory, objects, pages, mem, others, o, pre, x, post)
  {
    hide M.WellFormed, M.FreeBytes, M.BlockAt, Threaded, FramesDistinct, NoStray, FreshFrame, Holds, NoDup, Numbered;
    ObjectAt(m, memory, objects, pages, mem, o);
    FrameHolds(memory, pages[o], mem, pre, x, post);
    assert NoDup(pages[o]) by { ChainNoDup(pages, o); }
    ChainBounds(m, objects[o].start, pre, x, post);
    UnlinkFrames(pages, o, pre, x, post);
    UnlinkedWellFormed(m, pre, x);
    var m', objects', pages' := UnlinkedMcbs(m, pre, x), UnlinkedObjects(m, objects, o, pre, x), pages[o := pre + post];
    forall y | y in objects'
      ensures M.BlockAt(m', y) == Some(OBJECT_BLOCK) && Held(m', memory, objects'[y].start, ChainOf(pages', y), mem)
    {
      UnlinkedHeld(m, memory, objects, pages, mem, others, o, pre, x, post, y);
    }
    UnlinkNoStray(m, m', objects, objects', pages, others, o, pre, x, post);
  }

  // Every chain after page x has been taken out of that of o.
  lemma UnlinkedHeld(m: M.Mem, memory: seq<Page>, objects: Objects, pages: Pages, mem: map<Frame, Page>,
                     others: set<nat>, o: ObjId, pre: seq<PageRef>, x: PageRef, post: seq<PageRef>, y: ObjId)
    requires M.WellFormed(m) && Coupled(m, memory, objects, pages, mem, others)
    requires o in pages && o in objects && pages[o] == pre + [x] + post && y in objects
    requires 0 < x.frame < |m| && (pre != [] ==> pre[|pre| - 1].frame < |m| && pre[|pre| - 1].frame in Frames(pages[o]))
    ensures
      var m', objects' := UnlinkedMcbs(m, pre, x), UnlinkedObjects(m, objects, o, pre, x);
      && y in objects' && M.BlockAt(m, y) == Some(OBJECT_BLOCK)
      && Held(m', memory, objects'[y].start, ChainOf(pages[o := pre + post], y), mem)
  {
    hide M.WellFormed, M.FreeBytes, M.BlockAt, Threaded, NoStray, Holds, NoDup, Numbered;
    var m' := UnlinkedMcbs(m, pre, x);
    ObjectAt(m, memory, objects, pages, mem, y);
    if y == o {
      assert NoDup(pages[o]) by { ChainNoDup(pages, o); }
      FrameHolds(memory, pages[o], mem, pre, x, post);
      UnlinkThreads(m, objects[o].start, pre, x, post);
      assert Holds(memory, pre + post, mem) by { HoldsFewer(memory, pages[o], mem, pre + post); }
    } else {
      OtherChain(pages, o, y);
      HeldSame(m, m', memory, memory, objects[y].start, ChainOf(pages, y), mem, mem);
    }
  }

  lemma FrameHolds(memory: seq<Page>, chain: seq<PageRef>, mem: map<Frame, Page>, pre: seq<PageRef>, x: PageRef,
                   post: seq<PageRef>)
    requires Holds(memory, chain, mem) && chain == pre + [x] + post
    ensures x.frame < |memory| && x.frame in mem && memory[x.frame] == mem[x.frame]
    ensures Numbered(chain) ==> Numbered(pre + post) && x.nr <= MAX_PAGE_NR
    ensures forall f :: f in Frames(pre + post) ==> f in Frames(chain)
  {
    assert chain == pre + ([x] + post);
    FramesAppend(pre, [x] + post);
    FramesAppend(pre, post);
    FramesCons(x, post);
  }

  lemma HoldsFewer(memory: seq<Page>, chain: seq<PageRef>, mem: map<Frame, Page>, fewer: seq<PageRef>)
    requires Holds(memory, chain, mem) && forall f :: f in Frames(fewer) ==> f in Frames(chain)
    ensures Holds(memory, fewer, mem)
  {}

  lemma ChainNoDup(pages: Pages, o: ObjId)
    requires FramesDistinct(pages) && o in pages
    ensures NoDup(pages[o])
  {}

  lemma OtherChain(pages: Pages, o: ObjId, y: ObjId)
    requires FramesDistinct(pages) && o in pages && y != o
    ensures Frames(pages[o]) !! Frames(ChainOf(pages, y))
  {}

  lemma UnlinkNoStray(m: M.Mem, m': M.Mem, objects: Objects, objects': Objects, pages: Pages, others: set<nat>,
                      o: ObjId, pre: seq<PageRef>, x: PageRef, post: seq<PageRef>)
    requires NoStray(m, objects, pages, others) && objects'.Keys == objects.Keys && o in pages
    requires Frames(pages[o]) == Frames(pre + post) + {x.frame}
    requires forall p: nat :: M.BlockAt(m', p) == M.BlockAt(m, p)
    ensures NoStray(m', objects', pages[o := pre + post], others + {x.frame * PAGESIZE})
  {
    hide M.BlockAt, Frames;
    var pages' := pages[o := pre + post];
    forall p: nat | M.BlockAt(m', p).Some? && p !in objects' && p !in others && p != x.frame * PAGESIZE
      ensures p % PAGESIZE == 0 && OnSomeChain(pages', p / PAGESIZE)
    {
      var y :| y in pages && p / PAGESIZE in Frames(pages[y]);
      assert p / PAGESIZE != x.frame;
      assert y in pages' && p / PAGESIZE in Frames(pages'[y]);
    }
  }

  // A page that is on no chain is freed.
  lemma LoosePageFreed(m: M.Mem, memory: seq<Page>, objects: Objects, pages: Pages, mem: map<Frame, Page>,
                       others: set<nat>, f: Frame)
    requires M.WellFormed(m) && Coupled(m, memory, objects, pages, mem, others + {f * PAGESIZE})
    requires f < |m| && (m[f].size == PAGESIZE || m[f].size == M.VMOBJECT_PAGE) && FreshFrame(pages, f)
    ensures M.BlockAt(m, f * PAGESIZE) == Some(PAGESIZE) && f + 1 <= |m|
    ensures var m' := M.Freed(m, f * PAGESIZE);
      && M.WellFormed(m') && M.FreeBytes(m') == M.FreeBytes(m) + PAGESIZE
      && m' == m[f := m[f].(size := M.FREE, bitmap := {})]
      && Coupled(m', memory, objects, pages, mem, others)
  {
    hide M.WellFormed, M.FreeBytes, M.BlockAt, M.Freed, Threaded, FramesDistinct, NoStray, ObjectsHeld;
    FreedPage(m, f);
    var p := f * PAGESIZE;
    M.FreedFits(m, p);
    M.FreedWellFormed(m, p);
    M.FreedFree(m, p);
    var m' := M.Freed(m, p);
    forall q: nat ensures M.BlockAt(m', q) == if q == p then None else M.BlockAt(m, q) { M.FreedBlocks(m, p, q); }
    LooseHeld(m, m', memory, objects, pages, mem, f);
    assert NoStray(m', objects, pages, others) by { LooseNoStray(m, m', objects, pages, others, p); }
  }

  lemma LooseHeld(m: M.Mem, m': M.Mem, memory: seq<Page>, objects: Objects, pages: Pages, mem: map<Frame, Page>,
                  f: Frame)
    requires ObjectsHeld(m, memory, objects, pages, mem) && f < |m| && FreshFrame(pages, f)
    requires pages.Keys <= objects.Keys
    requires |m'| == |m| && (forall k :: 0 <= k < |m| && k != f ==> m'[k] == m[k])
    requires forall q: nat :: M.BlockAt(m, q) == Some(OBJECT_BLOCK) ==> M.BlockAt(m', q) == M.BlockAt(m, q)
    ensures ObjectsHeld(m', memory, objects, pages, mem)
  {
    hide M.BlockAt, Threaded;
    forall o | o in objects
      ensures M.BlockAt(m', o) == Some(OBJECT_BLOCK) && Held(m', memory, objects[o].start, ChainOf(pages, o), mem)
    {
      ObjectAt(m, memory, objects, pages, mem, o);
      HeldSame(m, m', memory, memory, objects[o].start, ChainOf(pages, o), mem, mem);
    }
  }

  lemma LooseNoStray(m: M.Mem, m': M.Mem, objects: Objects, pages: Pages, others: set<nat>, p: nat)
    requires NoStray(m, objects, pages, others + {p})
    requires forall q: nat :: M.BlockAt(m', q) == if q == p then None else M.BlockAt(m, q)
    ensures NoStray(m', objects, pages, others)
  {
    hide M.BlockAt, OnSomeChain;
  }

  // An object whose chain is empty is freed.
  lemma ObjectFreed(m: M.Mem, memory: seq<Page>, objects: Objects, pages: Pages, mem: map<Frame, Page>,
                    others: set<nat>, o: ObjId)
    requires M.WellFormed(m) && Coupled(m, memory, objects, pages, mem, others) && o in objects
    requires ChainOf(pages, o) == []
    ensures M.BlockAt(m, o) == Some(OBJECT_BLOCK) && o / PAGESIZE + OBJECT_BLOCK / PAGESIZE <= |m|
    ensures var m' := M.Freed(m, o);
      && M.WellFormed(m') && M.FreeBytes(m') == M.FreeBytes(m) + OBJECT_BLOCK && |m'| == |m|
      && Coupled(m', memory, objects - {o}, pages - {o}, mem, others)
  {
    hide M.WellFormed, M.FreeBytes, M.BlockAt, M.Freed, Threaded, FramesDistinct, NoStray;
    ObjectAt(m, memory, objects, pages, mem, o);
    M.FreedFits(m, o);
    M.FreedWellFormed(m, o);
    M.FreedFree(m, o);
    var m' := M.Freed(m, o);
    assert |m'| == |m| by { FreedLength(m, o); }
    forall q: nat ensures M.BlockAt(m', q) == if q == o then None else M.BlockAt(m, q) { M.FreedBlocks(m, o, q); }
    forall y | y in objects - {o}
      ensures M.BlockAt(m', y) == Some(OBJECT_BLOCK) && Held(m', memory, objects[y].start, ChainOf(pages - {o}, y), mem)
    {
      ObjectAt(m, memory, objects, pages, mem, y);
      FreeHeld(m, o, memory, objects[y].start, ChainOf(pages, y), mem);
    }
    assert FramesDistinct(pages - {o}) by { FewerDistinct(pages, o); }
    ObjectNoStray(m, m', objects, pages, others, o);
  }

  lemma FreedLength(m: M.Mem, o: nat)
    requires M.BlockAt(m, o).Some? && o / PAGESIZE + M.BlockAt(m, o).value / PAGESIZE <= |m|
    ensures |M.Freed(m, o)| == |m|
  {}

  lemma FewerDistinct(pages: Pages, o: ObjId)
    requires FramesDistinct(pages)
    ensures FramesDistinct(pages - {o})
  {}

  lemma FreeHeld(m: M.Mem, p: nat, memory: seq<Page>, start: nat, chain: seq<PageRef>, mem: map<Frame, Page>)
    requires M.WellFormed(m) && M.BlockAt(m, p) == Some(OBJECT_BLOCK) && Held(m, memory, start, chain, mem)
    requires p / PAGESIZE + OBJECT_BLOCK / PAGESIZE <= |m|
    ensures Held(M.Freed(m, p), memory, start, chain, mem)
  {
    hide M.WellFormed, M.BlockAt, M.Freed, Threaded;
    forall f | f in Frames(chain) ensures f < |M.Freed(m, p)| && f < |m| && M.Freed(m, p)[f] == m[f] {
      ThreadedFrames(m, start, chain, f);
      FreeSlotLeavesPages(m, p, f);
    }
    HeldSame(m, M.Freed(m, p), memory, memory, start, chain, mem, mem);
  }

  lemma ObjectNoStray(m: M.Mem, m': M.Mem, objects: Objects, pages: Pages, others: set<nat>, o: ObjId)
    requires NoStray(m, objects, pages, others) && ChainOf(pages, o) == []
    requires forall q: nat :: M.BlockAt(m', q) == if q == o then None else M.BlockAt(m, q)
    ensures NoStray(m', objects - {o}, pages - {o}, others)
  {
    hide M.BlockAt;
    forall p: nat | M.BlockAt(m', p).Some? && p !in objects - {o} && p !in others
      ensures p % PAGESIZE == 0 && OnSomeChain(pages - {o}, p / PAGESIZE)
    {
      var y :| y in pages && p / PAGESIZE in Frames(pages[y]);
      assert y in pages - {o} && p / PAGESIZE in Frames((pages - {o})[y]);
    }
  }

  // ---------------------------------------------------------------- vm_object_freepages and vm_object_combine

  // The pages that vm_object_freepages leaves on a chain.
  function Kept(chain: seq<PageRef>, first: nat, last: nat): seq<PageRef> {
    if chain == [] then []
    else if first <= chain[0].nr <= last then Kept(chain[1..], first, last)
    else [chain[0]] + Kept(chain[1..], first, last)
  }

  lemma {:induction false} KeptAppend(chain: seq<PageRef>, x: PageRef, first: nat, last: nat)
    ensures Kept(chain + [x], first, last) ==
            Kept(chain, first, last) + if first <= x.nr <= last then [] else [x]
  {
    if chain == [] {
      assert (chain + [x])[1..] == [];
    } else {
      assert (chain + [x])[1..] == chain[1..] + [x];
      KeptAppend(chain[1..], x, first, last);
    }
  }

  // What is kept is found as before, and what is not is not found.
  lemma {:induction false} KeptFind(chain: seq<PageRef>, first: nat, last: nat, n: nat)
    ensures FindIn(Kept(chain, first, last), n) == if first <= n <= last then None else FindIn(chain, n)
  {
    if chain != [] {
      KeptFind(chain[1..], first, last, n);
      FramesCons(chain[0], Kept(chain[1..], first, last));
    }
  }

  lemma {:induction false} KeptNone(chain: seq<PageRef>)
    requires Numbered(chain)
    ensures Kept(chain, 0, MAX_PAGE_NR) == []
  {
    if chain != [] {
      assert chain[0] in chain;
      KeptNone(chain[1..]);
    }
  }

  // One page is moved from the front of one chain to the front of another.
  lemma MovedPage(m: M.Mem, memory: seq<Page>, objects: Objects, pages: Pages, mem: map<Frame, Page>, others: set<nat>,
                  sub: ObjId, top: ObjId, x: PageRef, rest: seq<PageRef>)
    requires M.WellFormed(m) && Coupled(m, memory, objects, pages, mem, others)
    requires sub in pages && sub in objects && top in objects && sub != top && pages[sub] == [x] + rest
    ensures x.frame < |m| && objects[sub].start == x.frame
    ensures
      var m' := m[x.frame := m[x.frame].(next := objects[top].start)];
      var objects' := objects[sub := objects[sub].(start := m[x.frame].next)][top := objects[top].(start := x.frame)];
      && M.WellFormed(m') && M.FreeBytes(m') == M.FreeBytes(m)
      && Coupled(m', memory, objects', Pushed(pages[sub := rest], top, x), mem, others)
  {
    hide M.WellFormed, M.FreeBytes, Coupled, FreshFrame, Pushed;
    assert [] + [x] + rest == [x] + rest && [] + rest == rest;
    Unlinked(m, memory, objects, pages, mem, others, sub, [], x, rest);
    M.EntryAt(m, x.frame);
    var objects1 := objects[sub := objects[sub].(start := m[x.frame].next)];
    LinkedPage(m, memory, objects1, pages[sub := rest], mem, others, x.frame, x.nr, top);
    assert mem[x.frame := memory[x.frame]] == mem;
    assert M.Mcb(M.VMOBJECT_PAGE, {}, x.nr, objects[top].start) == m[x.frame].(next := objects[top].start);
  }
}
