/** The array of memory control blocks as a value: which blocks of memory are allocated, and what malloc and free
    do to the array. Block addresses are offsets from malloc_firstaddr. */
module Mcbs {
  import opened Basics

  const PAGESIZE := 4096
  const MINBLOCK := PAGESIZE / 32

  // Special values of the size field.
  const FREE := 0
  const CONTINUED := -1
  const RESERVED := -2
  const NOTAVAILABLE := -3
  const VMOBJECT_PAGE := -4

  // The bitmap is the set of numbers of its bits that are 1.
  datatype Mcb = Mcb(size: int, bitmap: set<nat>, pageNr: nat, next: nat)

  type Mem = seq<Mcb>

  predicate IsSlotSize(b: int) { b == 128 || b == 256 || b == 512 || b == 1024 || b == 2048 }

  predicate IsRunSize(b: int) { b >= PAGESIZE && b % PAGESIZE == 0 }

  // ---------------------------------------------------------------- well-formed arrays

  predicate IsRun(m: Mem, i: nat) {
    i < |m| && IsRunSize(m[i].size) && i + m[i].size / PAGESIZE <= |m|
    && forall j :: i < j < i + m[i].size / PAGESIZE ==> m[j].size == CONTINUED
  }

  predicate InRun(m: Mem, i: nat, j: nat) {
    i < |m| && IsRunSize(m[i].size) && i < j < i + m[i].size / PAGESIZE
  }

  predicate EntryOk(m: Mem, i: nat)
    requires i < |m|
  {
    var e := m[i];
    if IsSlotSize(e.size) then e.bitmap != {} && forall b :: b in e.bitmap ==> b < PAGESIZE / e.size
    else
      && e.bitmap == {}
      && (|| e.size == FREE || e.size == RESERVED || e.size == NOTAVAILABLE || e.size == VMOBJECT_PAGE
          || e.size == CONTINUED || IsRun(m, i))
  }

  // Every continuation page belongs to a run, so that no page is lost.
  ghost predicate HasHead(m: Mem, j: nat) {
    exists i: nat :: InRun(m, i, j)
  }

  ghost predicate WellFormed(m: Mem) {
    && |m| > 0 && m[0].size == RESERVED
    && (forall i {:trigger EntryOk(m, i)} :: 0 <= i < |m| ==> EntryOk(m, i))
    && (forall j {:trigger HasHead(m, j)} :: 0 <= j < |m| && m[j].size == CONTINUED ==> HasHead(m, j))
  }

  lemma EntryAt(m: Mem, i: nat)
    requires WellFormed(m) && i < |m|
    ensures EntryOk(m, i)
  {
    assert EntryOk(m, i);
  }

  // ---------------------------------------------------------------- blocks

  // Size of the allocated block that starts at address p, if there is one.
  function BlockAt(m: Mem, p: nat): Option<nat> {
    var i, off := p / PAGESIZE, p % PAGESIZE;
    if i >= |m| then None
    else
      var e := m[i];
      if IsSlotSize(e.size) then
        if off % e.size == 0 && off / e.size in e.bitmap then Some(e.size) else None
      else if off != 0 then None
      else if e.size == VMOBJECT_PAGE then Some(PAGESIZE)
      else if IsRunSize(e.size) then Some(e.size)
      else None
  }

  lemma BlockExtent(m: Mem, p: nat)
    requires WellFormed(m) && BlockAt(m, p).Some?
    ensures
      var i, b := p / PAGESIZE, BlockAt(m, p).value;
      if IsSlotSize(m[i].size) then i * PAGESIZE <= p && p + b <= (i + 1) * PAGESIZE && b == m[i].size
           && p % PAGESIZE % b == 0
      else p == i * PAGESIZE && p + b <= |m| * PAGESIZE && b >= PAGESIZE && b % PAGESIZE == 0
  {
    var i, off := p / PAGESIZE, p % PAGESIZE;
    assert EntryOk(m, i);
    var e := m[i];
    if IsSlotSize(e.size) {
      SlotInPage(e.size, off, off / e.size);
    } else if IsRunSize(e.size) {
      assert i + e.size / PAGESIZE <= |m|;
      assert e.size / PAGESIZE * PAGESIZE == e.size;
    }
  }

  lemma SlotInPage(b: nat, off: nat, k: nat)
    requires IsSlotSize(b) && off == k * b && k < PAGESIZE / b
    ensures off + b <= PAGESIZE
  {
    assert (k + 1) * b <= PAGESIZE / b * b;
  }

  // Live blocks never overlap.
  lemma BlocksDisjoint(m: Mem, p: nat, q: nat)
    requires WellFormed(m) && BlockAt(m, p).Some? && BlockAt(m, q).Some? && p < q
    ensures p + BlockAt(m, p).value <= q
  {
    BlockExtent(m, p);
    BlockExtent(m, q);
    var i, i' := p / PAGESIZE, q / PAGESIZE;
    assert EntryOk(m, i);
    if i == i' {
      SlotsApart(m[i].size, p % PAGESIZE, q % PAGESIZE);
    } else if IsRunSize(m[i].size) && !IsSlotSize(m[i].size) {
      assert IsRun(m, i);
      assert !(i < i' < i + m[i].size / PAGESIZE);
      assert (i + m[i].size / PAGESIZE) * PAGESIZE <= i' * PAGESIZE;
    }
  }

  lemma SlotsApart(b: nat, x: nat, y: nat)
    requires IsSlotSize(b) && x % b == 0 && y % b == 0 && x < y
    ensures x + b <= y
  {}

  // The pages a block covers are neither free, nor the MCB array's, nor outside memory.
  lemma BlockPages(m: Mem, p: nat, j: nat)
    requires WellFormed(m) && BlockAt(m, p).Some?
    requires p / PAGESIZE <= j && j * PAGESIZE < p + BlockAt(m, p).value
    ensures j < |m| && m[j].size != FREE && m[j].size != RESERVED && m[j].size != NOTAVAILABLE
  {
    BlockExtent(m, p);
    var i := p / PAGESIZE;
    assert EntryOk(m, i);
    if j > i {
      assert IsRun(m, i);
      assert j < i + m[i].size / PAGESIZE;
    }
  }

  // ---------------------------------------------------------------- free memory

  function FreeIn(e: Mcb): int {
    if e.size == FREE then PAGESIZE
    else if IsSlotSize(e.size) then PAGESIZE - |e.bitmap| * e.size
    else 0
  }

  // Bytes in free pages and in free slots of partly used pages.
  function FreeBytes(m: Mem): int {
    if m == [] then 0 else FreeBytes(m[..|m| - 1]) + FreeIn(m[|m| - 1])
  }

  lemma {:induction false} FreeBytesUpdate(m: Mem, i: nat, e: Mcb)
    requires i < |m|
    ensures FreeBytes(m[i := e]) == FreeBytes(m) - FreeIn(m[i]) + FreeIn(e)
  {
    var m', last := m[i := e], |m| - 1;
    if i == last {
      assert m'[..last] == m[..last];
    } else {
      assert m'[..last] == m[..last][i := e];
      FreeBytesUpdate(m[..last], i, e);
    }
  }

  // ---------------------------------------------------------------- whole pages

  // Sizes of the pages lo..hi set to v.
  function Marked(m: Mem, lo: nat, hi: nat, v: int): Mem
    requires lo <= hi <= |m|
  {
    seq(|m|, k requires 0 <= k < |m| => if lo <= k < hi then m[k].(size := v) else m[k])
  }

  lemma MarkedStep(m: Mem, lo: nat, hi: nat, v: int)
    requires lo <= hi < |m|
    ensures Marked(m, lo, hi + 1, v) == Marked(m, lo, hi, v)[hi := m[hi].(size := v)]
  {}

  lemma {:induction false} MarkedFree(m: Mem, lo: nat, hi: nat, v: int)
    requires lo <= hi <= |m| && (v == FREE || v == CONTINUED)
    requires forall k :: lo <= k < hi ==> m[k].size == FREE || m[k].size == CONTINUED
    ensures FreeBytes(Marked(m, lo, hi, v)) ==
            FreeBytes(m) - FreePagesIn(m, lo, hi) + (if v == FREE then (hi - lo) * PAGESIZE else 0)
    decreases hi
  {
    if lo == hi {
      assert Marked(m, lo, hi, v) == m;
    } else {
      MarkedFree(m, lo, hi - 1, v);
      MarkedStep(m, lo, hi - 1, v);
      FreeBytesUpdate(Marked(m, lo, hi - 1, v), hi - 1, m[hi - 1].(size := v));
    }
  }

  function FreePagesIn(m: Mem, lo: nat, hi: nat): int
    requires lo <= hi <= |m|
  {
    if lo == hi then 0 else FreePagesIn(m, lo, hi - 1) + FreeIn(m[hi - 1])
  }

  // malloc of n whole pages at page i
  function AllocRun(m: Mem, i: nat, n: nat): Mem
    requires n > 0 && i + n <= |m|
  {
    Marked(m, i + 1, i + n, CONTINUED)[i := m[i].(size := n * PAGESIZE)]
  }

  predicate AllFree(m: Mem, i: nat, n: nat) {
    i + n <= |m| && forall k :: i <= k < i + n ==> m[k].size == FREE
  }

  lemma RunSizeOf(n: nat)
    requires n > 0
    ensures IsRunSize(n * PAGESIZE) && n * PAGESIZE / PAGESIZE == n && !IsSlotSize(n * PAGESIZE)
  {}

  lemma AllocRunWellFormed(m: Mem, i: nat, n: nat)
    requires WellFormed(m) && n > 0 && AllFree(m, i, n)
    ensures WellFormed(AllocRun(m, i, n))
  {
    var m' := AllocRun(m, i, n);
    RunSizeOf(n);
    forall j | 0 <= j < |m'| ensures EntryOk(m', j) {
      assert EntryOk(m, j);
      if IsRun(m, j) && m'[j] == m[j] { RunKept(m, m', j, i, n); }
    }
    forall j | 0 <= j < |m'| && m'[j].size == CONTINUED ensures HasHead(m', j) {
      if i < j < i + n {
        assert InRun(m', i, j);
      } else {
        assert HasHead(m, j);
        var h: nat :| InRun(m, h, j);
        assert InRun(m', h, j);
      }
    }
  }

  // A run elsewhere is not touched by a change to free pages.
  lemma RunKept(m: Mem, m': Mem, h: nat, i: nat, n: nat)
    requires IsRun(m, h) && |m'| == |m| && AllFree(m, i, n) && m'[h] == m[h]
    requires forall k :: 0 <= k < |m| && !(i <= k < i + n) ==> m'[k] == m[k]
    ensures IsRun(m', h)
  {}

  lemma AllocRunBlocks(m: Mem, i: nat, n: nat, p: nat)
    requires WellFormed(m) && n > 0 && AllFree(m, i, n)
    ensures
      var m' := AllocRun(m, i, n);
      if p == i * PAGESIZE then BlockAt(m, p) == None && BlockAt(m', p) == Some(n * PAGESIZE)
      else BlockAt(m', p) == BlockAt(m, p)
  {
    RunSizeOf(n);
    if p / PAGESIZE == i && p != i * PAGESIZE { assert p % PAGESIZE != 0; }
  }

  lemma {:induction false} FreePagesAll(m: Mem, lo: nat, hi: nat)
    requires lo <= hi <= |m| && forall k :: lo <= k < hi ==> m[k].size == FREE
    ensures FreePagesIn(m, lo, hi) == (hi - lo) * PAGESIZE
    decreases hi
  {
    if lo < hi { FreePagesAll(m, lo, hi - 1); }
  }

  lemma AllocRunFree(m: Mem, i: nat, n: nat)
    requires n > 0 && AllFree(m, i, n)
    ensures FreeBytes(AllocRun(m, i, n)) == FreeBytes(m) - n * PAGESIZE
  {
    MarkedFree(m, i + 1, i + n, CONTINUED);
    FreePagesAll(m, i + 1, i + n);
    RunSizeOf(n);
    FreeBytesUpdate(Marked(m, i + 1, i + n, CONTINUED), i, m[i].(size := n * PAGESIZE));
  }

  // ---------------------------------------------------------------- slots within a page

  predicate FreeSlot(m: Mem, i: nat, j: nat, b: nat) {
    i < |m| && IsSlotSize(b) && j < PAGESIZE / b
    && ((m[i].size == FREE && j == 0) || (m[i].size == b && j !in m[i].bitmap))
  }

  // malloc of slot j, of size b, in page i
  function AllocSlot(m: Mem, i: nat, j: nat, b: nat): Mem
    requires i < |m|
  {
    m[i := m[i].(size := b, bitmap := if m[i].size == FREE then {j} else m[i].bitmap + {j})]
  }

  // Changing one page that is no part of a run, to something that is none either.
  lemma OnePageWellFormed(m: Mem, i: nat, e: Mcb)
    requires WellFormed(m) && 0 < i < |m|
    requires m[i].size != CONTINUED && (IsRunSize(m[i].size) ==> m[i].size == PAGESIZE)
    requires e.size != CONTINUED && (IsRunSize(e.size) ==> e.size == PAGESIZE)
    requires EntryOk(m[i := e], i)
    ensures WellFormed(m[i := e])
  {
    var m' := m[i := e];
    forall j | 0 <= j < |m'| ensures EntryOk(m', j) {
      assert EntryOk(m, j);
      if j != i && IsRun(m, j) { assert IsRun(m', j); }
    }
    forall j | 0 <= j < |m'| && m'[j].size == CONTINUED ensures HasHead(m', j) {
      assert HasHead(m, j);
      var h: nat :| InRun(m, h, j);
      assert InRun(m', h, j);
    }
  }

  lemma AllocSlotWellFormed(m: Mem, i: nat, j: nat, b: nat)
    requires WellFormed(m) && FreeSlot(m, i, j, b)
    ensures WellFormed(AllocSlot(m, i, j, b))
  {
    assert EntryOk(m, i);
    assert i != 0;
    OnePageWellFormed(m, i, AllocSlot(m, i, j, b)[i]);
  }

  lemma SlotOffset(b: nat, j: nat)
    requires IsSlotSize(b) && j < PAGESIZE / b
    ensures j * b < PAGESIZE && j * b % b == 0 && j * b / b == j
  {}

  lemma AllocSlotBlocks(m: Mem, i: nat, j: nat, b: nat, p: nat)
    requires WellFormed(m) && FreeSlot(m, i, j, b)
    ensures
      var m' := AllocSlot(m, i, j, b);
      if p == i * PAGESIZE + j * b then BlockAt(m, p) == None && BlockAt(m', p) == Some(b)
      else BlockAt(m', p) == BlockAt(m, p)
  {
    assert EntryOk(m, i);
    SlotOffset(b, j);
    if p / PAGESIZE == i {
      var off := p % PAGESIZE;
      if off % b == 0 && off / b == j { assert off == j * b; }
    } else {
      assert p != i * PAGESIZE + j * b;
    }
  }

  lemma AllocSlotFree(m: Mem, i: nat, j: nat, b: nat)
    requires WellFormed(m) && FreeSlot(m, i, j, b)
    ensures FreeBytes(AllocSlot(m, i, j, b)) == FreeBytes(m) - b
  {
    FreeBytesUpdate(m, i, AllocSlot(m, i, j, b)[i]);
    if m[i].size != FREE { assert |m[i].bitmap + {j}| == |m[i].bitmap| + 1; }
  }

  // ---------------------------------------------------------------- free

  // free of the block at address p
  function Freed(m: Mem, p: nat): Mem
    requires BlockAt(m, p).Some? && p / PAGESIZE + BlockAt(m, p).value / PAGESIZE <= |m|
  {
    var i, e := p / PAGESIZE, m[p / PAGESIZE];
    if IsSlotSize(e.size) then
      var left := e.bitmap - {p % PAGESIZE / e.size};
      m[i := e.(bitmap := left, size := if left == {} then FREE else e.size)]
    else
      var n := BlockAt(m, p).value / PAGESIZE;
      Marked(m, i + 1, i + n, FREE)[i := e.(size := FREE, bitmap := {})]
  }

  lemma FreedFits(m: Mem, p: nat)
    requires WellFormed(m) && BlockAt(m, p).Some?
    ensures p / PAGESIZE + BlockAt(m, p).value / PAGESIZE <= |m|
    ensures !IsSlotSize(m[p / PAGESIZE].size) ==> BlockAt(m, p).value >= PAGESIZE
  {
    BlockExtent(m, p);
    assert EntryOk(m, p / PAGESIZE);
  }

  // free right after malloc restores every MCB.
  lemma FreeUndoesAllocRun(m: Mem, i: nat, n: nat)
    requires WellFormed(m) && n > 0 && AllFree(m, i, n)
    ensures
      var m' := AllocRun(m, i, n);
      BlockAt(m', i * PAGESIZE) == Some(n * PAGESIZE) && Freed(m', i * PAGESIZE) == m
  {
    RunSizeOf(n);
    var m' := AllocRun(m, i, n);
    assert i * PAGESIZE / PAGESIZE == i;
    forall k | 0 <= k < |m| ensures Freed(m', i * PAGESIZE)[k] == m[k] { assert EntryOk(m, k); }
  }

  lemma FreeUndoesAllocSlot(m: Mem, i: nat, j: nat, b: nat)
    requires WellFormed(m) && FreeSlot(m, i, j, b)
    ensures
      var p := i * PAGESIZE + j * b;
      BlockAt(AllocSlot(m, i, j, b), p) == Some(b) && Freed(AllocSlot(m, i, j, b), p) == m
  {
    SlotOffset(b, j);
    AllocSlotBlocks(m, i, j, b, i * PAGESIZE + j * b);
    assert EntryOk(m, i);
    assert m[i].bitmap + {j} - {j} == m[i].bitmap;
  }

  lemma FreedWellFormed(m: Mem, p: nat)
    requires WellFormed(m) && BlockAt(m, p).Some? && p / PAGESIZE + BlockAt(m, p).value / PAGESIZE <= |m|
    ensures WellFormed(Freed(m, p))
  {
    var i := p / PAGESIZE;
    assert EntryOk(m, i);
    BlockExtent(m, p);
    if IsSlotSize(m[i].size) {
      OnePageWellFormed(m, i, Freed(m, p)[i]);
    } else {
      FreedRunWellFormed(m, i, BlockAt(m, p).value / PAGESIZE, p);
    }
  }

  // Two runs never share a page.
  lemma RunsApart(m: Mem, i: nat, h: nat, j: nat)
    requires IsRun(m, i) && IsRun(m, h) && InRun(m, h, j) && h != i
    ensures !(i <= j < i + m[i].size / PAGESIZE)
  {}

  lemma FreedRunWellFormed(m: Mem, i: nat, n: nat, p: nat)
    requires WellFormed(m) && 0 < i < |m| && p == i * PAGESIZE && n > 0 && i + n <= |m|
    requires !IsSlotSize(m[i].size) && BlockAt(m, p) == Some(n * PAGESIZE)
    ensures WellFormed(Marked(m, i + 1, i + n, FREE)[i := m[i].(size := FREE, bitmap := {})])
  {
    var m' := Marked(m, i + 1, i + n, FREE)[i := m[i].(size := FREE, bitmap := {})];
    assert EntryOk(m, i);
    forall j | 0 <= j < |m'| ensures EntryOk(m', j) {
      assert EntryOk(m, j);
      if IsRun(m, j) && m'[j] == m[j] { FreedRunKept(m, m', i, n, j); }
    }
    forall j | 0 <= j < |m'| && m'[j].size == CONTINUED ensures HasHead(m', j) {
      assert HasHead(m, j);
      var h: nat :| InRun(m, h, j);
      assert h != i;
      assert EntryOk(m, h) && IsRun(m, h);
      assert !(i < h < i + n);
      assert InRun(m', h, j);
    }
  }

  // Freeing run i leaves every other run whole.
  lemma FreedRunKept(m: Mem, m': Mem, i: nat, n: nat, h: nat)
    requires WellFormed(m) && 0 < i < |m| && n > 0 && i + n <= |m| && h < |m| && IsRun(m, h) && |m'| == |m|
    requires n == 1 || (IsRun(m, i) && m[i].size == n * PAGESIZE)
    requires m[i].size != CONTINUED && !(i <= h < i + n)
    requires forall k :: 0 <= k < |m| && !(i <= k < i + n) ==> m'[k] == m[k]
    ensures IsRun(m', h)
  {
    forall k | h < k < h + m[h].size / PAGESIZE ensures m'[k].size == CONTINUED {
      assert InRun(m, h, k);
      if n > 1 { RunsApart(m, i, h, k); }
    }
  }

  lemma FreedBlocks(m: Mem, p: nat, q: nat)
    requires WellFormed(m) && BlockAt(m, p).Some? && p / PAGESIZE + BlockAt(m, p).value / PAGESIZE <= |m|
    ensures BlockAt(Freed(m, p), q) == if q == p then None else BlockAt(m, q)
  {
    var i, i' := p / PAGESIZE, q / PAGESIZE;
    BlockExtent(m, p);
    assert EntryOk(m, i);
    if IsSlotSize(m[i].size) {
      if i == i' && q != p { SlotsDiffer(m[i].size, p % PAGESIZE, q % PAGESIZE); }
    } else if i < i' < |m| && IsRun(m, i) {
      assert i' < i + m[i].size / PAGESIZE ==> m[i'].size == CONTINUED;
    }
  }

  lemma SlotsDiffer(b: nat, x: nat, y: nat)
    requires IsSlotSize(b) && x % b == 0 && x != y
    ensures y % b != 0 || y / b != x / b
  {}

  lemma FreedFree(m: Mem, p: nat)
    requires WellFormed(m) && BlockAt(m, p).Some? && p / PAGESIZE + BlockAt(m, p).value / PAGESIZE <= |m|
    ensures FreeBytes(Freed(m, p)) == FreeBytes(m) + BlockAt(m, p).value
  {
    hide FreeBytes, WellFormed;
    var i := p / PAGESIZE;
    EntryAt(m, i);
    if IsSlotSize(m[i].size) {
      FreeBytesUpdate(m, i, Freed(m, p)[i]);
      SlotFreed(m[i], p % PAGESIZE / m[i].size);
    } else {
      BlockExtent(m, p);
      FreedRunFree(m, i, BlockAt(m, p).value / PAGESIZE);
    }
  }

  lemma SlotFreed(e: Mcb, k: nat)
    requires IsSlotSize(e.size) && k in e.bitmap
    ensures var left := e.bitmap - {k};
      FreeIn(e.(bitmap := left, size := if left == {} then FREE else e.size)) == FreeIn(e) + e.size
  {
    assert |e.bitmap - {k}| == |e.bitmap| - 1;
  }

  lemma FreedRunFree(m: Mem, i: nat, n: nat)
    requires n > 0 && i + n <= |m| && FreeIn(m[i]) == 0
    requires forall k :: i < k < i + n ==> m[k].size == CONTINUED
    ensures FreeBytes(Marked(m, i + 1, i + n, FREE)[i := m[i].(size := FREE, bitmap := {})]) ==
            FreeBytes(m) + n * PAGESIZE
  {
    MarkedFree(m, i + 1, i + n, FREE);
    NoFreePages(m, i + 1, i + n);
    FreeBytesUpdate(Marked(m, i + 1, i + n, FREE), i, m[i].(size := FREE, bitmap := {}));
  }

  lemma {:induction false} NoFreePages(m: Mem, lo: nat, hi: nat)
    requires lo <= hi <= |m| && forall k :: lo <= k < hi ==> m[k].size == CONTINUED
    ensures FreePagesIn(m, lo, hi) == 0
    decreases hi
  {
    if lo < hi { NoFreePages(m, lo, hi - 1); }
  }

  // ---------------------------------------------------------------- pages of vm_objects

  // A one-page block is handed to a vm_object's page chain, or relinked there: no block moves.
  lemma VmPageKeeps(m: Mem, i: nat, e: Mcb)
    requires WellFormed(m) && i < |m| && (m[i].size == PAGESIZE || m[i].size == VMOBJECT_PAGE)
    requires e.size == VMOBJECT_PAGE && e.bitmap == {}
    ensures WellFormed(m[i := e]) && FreeBytes(m[i := e]) == FreeBytes(m)
    ensures forall p: nat :: BlockAt(m[i := e], p) == BlockAt(m, p)
  {
    OnePageWellFormed(m, i, e);
    FreeBytesUpdate(m, i, e);
  }

  // ---------------------------------------------------------------- one allocation, of either kind

  predicate CanAlloc(m: Mem, p: nat, b: int) {
    || (IsSlotSize(b) && p % PAGESIZE % b == 0 && FreeSlot(m, p / PAGESIZE, p % PAGESIZE / b, b))
    || (IsRunSize(b) && !IsSlotSize(b) && p % PAGESIZE == 0 && AllFree(m, p / PAGESIZE, b / PAGESIZE))
  }

  function Allocated(m: Mem, p: nat, b: int): Mem
    requires CanAlloc(m, p, b)
  {
    if IsSlotSize(b) then AllocSlot(m, p / PAGESIZE, p % PAGESIZE / b, b)
    else AllocRun(m, p / PAGESIZE, b / PAGESIZE)
  }

  lemma AllocatedKeeps(m: Mem, p: nat, b: int)
    requires WellFormed(m) && CanAlloc(m, p, b)
    ensures var m' := Allocated(m, p, b);
      && WellFormed(m') && |m'| == |m| && FreeBytes(m') == FreeBytes(m) - b
      && BlockAt(m, p) == None && BlockAt(m', p) == Some(b)
      && (forall q: nat :: q != p ==> BlockAt(m', q) == BlockAt(m, q))
      && p / PAGESIZE + b / PAGESIZE <= |m| && Freed(m', p) == m
  {
    hide WellFormed, FreeBytes, BlockAt, Freed, AllocRun, AllocSlot;
    var i := p / PAGESIZE;
    if IsSlotSize(b) {
      var j := p % PAGESIZE / b;
      AllocSlotWellFormed(m, i, j, b);
      AllocSlotFree(m, i, j, b);
      SlotAddress(b, p);
      FreeUndoesAllocSlot(m, i, j, b);
      forall q ensures if q == p then BlockAt(m, q) == None else BlockAt(AllocSlot(m, i, j, b), q) == BlockAt(m, q) {
        AllocSlotBlocks(m, i, j, b, q);
      }
      assert |AllocSlot(m, i, j, b)| == |m| by { SlotLength(m, i, j, b); }
    } else {
      var n := b / PAGESIZE;
      AllocRunWellFormed(m, i, n);
      AllocRunFree(m, i, n);
      FreeUndoesAllocRun(m, i, n);
      forall q ensures if q == p then BlockAt(m, q) == None else BlockAt(AllocRun(m, i, n), q) == BlockAt(m, q) {
        AllocRunBlocks(m, i, n, q);
      }
      assert |AllocRun(m, i, n)| == |m| by { RunLength(m, i, n); }
    }
  }

  lemma SlotAddress(b: nat, p: nat)
    requires IsSlotSize(b) && p % PAGESIZE % b == 0
    ensures p == p / PAGESIZE * PAGESIZE + p % PAGESIZE / b * b && b / PAGESIZE == 0
  {}

  lemma SlotLength(m: Mem, i: nat, j: nat, b: nat)
    requires i < |m|
    ensures |AllocSlot(m, i, j, b)| == |m|
  {}

  lemma RunLength(m: Mem, i: nat, n: nat)
    requires n > 0 && i + n <= |m|
    ensures |AllocRun(m, i, n)| == |m|
  {}

  // ---------------------------------------------------------------- every sequence of operations

  datatype Op = Alloc(p: nat, b: nat) | Free(p: nat) | ToVmPage(p: nat, pageNr: nat, next: nat)

  predicate CanDo(m: Mem, op: Op) {
    match op
    case Alloc(p, b) => CanAlloc(m, p, b)
    case Free(p) => BlockAt(m, p).Some? && p / PAGESIZE + BlockAt(m, p).value / PAGESIZE <= |m|
    case ToVmPage(p, pageNr, next) => p % PAGESIZE == 0 && BlockAt(m, p) == Some(PAGESIZE)
  }

  function Do(m: Mem, op: Op): Mem
    requires CanDo(m, op)
  {
    match op
    case Alloc(p, b) => Allocated(m, p, b)
    case Free(p) => Freed(m, p)
    case ToVmPage(p, pageNr, next) => m[p / PAGESIZE := Mcb(VMOBJECT_PAGE, {}, pageNr, next)]
  }

  predicate CanDoAll(m: Mem, ops: seq<Op>)
    decreases |ops|
  {
    ops == [] || (CanDo(m, ops[0]) && CanDoAll(Do(m, ops[0]), ops[1..]))
  }

  function DoAll(m: Mem, ops: seq<Op>): Mem
    requires CanDoAll(m, ops)
    decreases |ops|
  {
    if ops == [] then m else DoAll(Do(m, ops[0]), ops[1..])
  }

  // What a heap is to its callers: the live blocks and their sizes.
  function LiveStep(live: map<nat, nat>, op: Op): map<nat, nat> {
    match op
    case Alloc(p, b) => live[p := b]
    case Free(p) => live - {p}
    case ToVmPage(_, _, _) => live
  }

  function Live(live: map<nat, nat>, ops: seq<Op>): map<nat, nat>
    decreases |ops|
  {
    if ops == [] then live else Live(LiveStep(live, ops[0]), ops[1..])
  }

  ghost predicate Represents(m: Mem, live: map<nat, nat>) {
    forall p: nat :: BlockAt(m, p) == if p in live then Some(live[p]) else None
  }

  // Bytes taken, or given back.
  function Taken(m: Mem, op: Op): int {
    match op
    case Alloc(p, b) => b
    case Free(p) => if BlockAt(m, p).Some? then 0 - BlockAt(m, p).value else 0
    case ToVmPage(_, _, _) => 0
  }

  function TakenInAll(m: Mem, ops: seq<Op>): int
    requires CanDoAll(m, ops)
    decreases |ops|
  {
    if ops == [] then 0 else Taken(m, ops[0]) + TakenInAll(Do(m, ops[0]), ops[1..])
  }

  // The MCB array's own pages, and those beyond the end of memory, never change hands.
  predicate OffLimits(m: Mem, j: nat) {
    j < |m| && (m[j].size == RESERVED || m[j].size == NOTAVAILABLE)
  }

  ghost predicate SameLimits(m: Mem, m': Mem) {
    |m'| == |m| && forall j: nat :: OffLimits(m', j) <==> OffLimits(m, j)
  }

  lemma DoLimits(m: Mem, op: Op)
    requires WellFormed(m) && CanDo(m, op)
    ensures SameLimits(m, Do(m, op))
  {
    hide WellFormed;
    match op
    case Alloc(p, b) => RunSizeOf(b / PAGESIZE + 1);
    case Free(p) =>
      EntryAt(m, p / PAGESIZE);
      assert IsRunSize(m[p / PAGESIZE].size) ==> BlockAt(m, p).value == m[p / PAGESIZE].size;
    case ToVmPage(p, pageNr, next) => PageBlock(m, p);
  }

  lemma DoKeeps(m: Mem, live: map<nat, nat>, op: Op)
    requires WellFormed(m) && Represents(m, live) && CanDo(m, op)
    ensures WellFormed(Do(m, op)) && FreeBytes(Do(m, op)) == FreeBytes(m) - Taken(m, op)
    ensures Represents(Do(m, op), LiveStep(live, op))
  {
    hide WellFormed, FreeBytes, BlockAt, Freed, Allocated, CanAlloc;
    match op
    case Alloc(p, b) => AllocatedKeeps(m, p, b);
    case Free(p) =>
      FreedWellFormed(m, p);
      FreedFree(m, p);
      forall q ensures BlockAt(Freed(m, p), q) == if q == p then None else BlockAt(m, q) { FreedBlocks(m, p, q); }
    case ToVmPage(p, pageNr, next) =>
      PageBlock(m, p);
      VmPageKeeps(m, p / PAGESIZE, Mcb(VMOBJECT_PAGE, {}, pageNr, next));
  }

  lemma PageBlock(m: Mem, p: nat)
    requires p % PAGESIZE == 0 && BlockAt(m, p) == Some(PAGESIZE)
    ensures p / PAGESIZE < |m| && (m[p / PAGESIZE].size == PAGESIZE || m[p / PAGESIZE].size == VMOBJECT_PAGE)
  {}

  // Over every sequence of malloc, free and hand-over to a vm_object: the array stays well formed, the live blocks
  // are exactly those allocated and not freed, and free memory is what was free minus what was taken.
  lemma {:induction false} EverySequence(m: Mem, live: map<nat, nat>, ops: seq<Op>)
    requires WellFormed(m) && Represents(m, live) && CanDoAll(m, ops)
    ensures WellFormed(DoAll(m, ops)) && Represents(DoAll(m, ops), Live(live, ops))
    ensures FreeBytes(DoAll(m, ops)) == FreeBytes(m) - TakenInAll(m, ops)
    ensures SameLimits(m, DoAll(m, ops))
    decreases |ops|
  {
    hide WellFormed, FreeBytes, Represents, CanDo, Do, OffLimits;
    if ops != [] {
      DoKeeps(m, live, ops[0]);
      DoLimits(m, ops[0]);
      EverySequence(Do(m, ops[0]), LiveStep(live, ops[0]), ops[1..]);
    }
  }
}
