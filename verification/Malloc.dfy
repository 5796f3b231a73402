/** kern/malloc.c: the allocator over the MCB array, with one rotating search position per power of two. */
module Malloc {
  import opened Basics
  import opened Mcbs

  const SIZEOF_MCB := 16
  const MCBS_PER_PAGE := PAGESIZE / SIZEOF_MCB
  const NR_OF_MCBSEARCH := 16
  const WORD := 0x1_0000_0000    // size_t arithmetic is modulo this

  // ---------------------------------------------------------------- block sizes

  // Requests of two pages and more are rounded up to whole pages (in 32 bits), others to a power of two.
  function BlockSize(len: nat): (b: nat)
    requires 0 < len < WORD
  {
    if len >= 2 * PAGESIZE then (len + PAGESIZE - 1) / PAGESIZE * PAGESIZE % WORD
    else if len <= 128 then 128
    else if len <= 256 then 256
    else if len <= 512 then 512
    else if len <= 1024 then 1024
    else if len <= 2048 then 2048
    else if len <= 4096 then 4096
    else 8192
  }

  // A block holds what was asked for. Its size is the smallest power of two from 128 on that does, or, for more than
  // half a page, the smallest number of pages. That of a request in the last page of the address space wraps around to
  // zero.
  lemma BlockSizeFits(len: nat)
    requires 0 < len < WORD
    ensures BlockSize(len) >= len <==> len <= WORD - PAGESIZE
    ensures BlockSize(len) < 2 * len || BlockSize(len) == MINBLOCK
    ensures len <= 2048 ==> BlockSize(len) in {128, 256, 512, 1024, 2048}
    ensures 2048 < len ==> BlockSize(len) % 4096 == 0 && BlockSize(len) < len + 4096
    ensures len <= WORD - PAGESIZE ==> IsSlotSize(BlockSize(len)) || IsRunSize(BlockSize(len))
    ensures len > WORD - PAGESIZE ==> BlockSize(len) == 0
  {
    if len >= 2 * PAGESIZE {
      var n := (len + PAGESIZE - 1) / PAGESIZE;
      assert n <= WORD / PAGESIZE;
      assert len > WORD - PAGESIZE <==> n == WORD / PAGESIZE;
      if n == WORD / PAGESIZE { assert n * PAGESIZE % WORD == 0; }
    }
  }

  method RoundUp(len: nat) returns (bsize: nat)
    requires 0 < len < WORD
    ensures bsize == BlockSize(len)
  {
    if len >= 2 * PAGESIZE {
      bsize := len / PAGESIZE;
      if len > bsize * PAGESIZE { bsize := bsize + 1; }
      bsize := bsize * PAGESIZE % WORD;
    } else {
      var found := false;
      bsize := 2 * PAGESIZE;
      while !found
        invariant if found then bsize == BlockSize(len)
                  else (bsize in {128, 256, 512, 1024, 2048, 4096, 8192} && len <= 2 * bsize)
        decreases !found, bsize
      {
        if len > bsize {
          bsize := bsize * 2;
          found := true;
        } else {
          bsize := bsize / 2;
          if bsize < MINBLOCK {
            bsize := MINBLOCK;
            found := true;
          }
        }
      }
    }
  }

  function Pow2(n: nat): (p: nat)
    ensures p > 0
  {
    if n == 0 then 1 else 2 * Pow2(n - 1)
  }

  // The exponent of the largest power of two in b, at most 15.
  function SearchIndex(b: nat): (n: nat)
    requires b > 0
    ensures n < NR_OF_MCBSEARCH && Pow2(n) <= b && (n + 1 == NR_OF_MCBSEARCH || b < Pow2(n + 1))
  {
    IndexFrom(b, NR_OF_MCBSEARCH - 1)
  }

  function IndexFrom(b: nat, n: nat): (k: nat)
    requires b > 0
    ensures k <= n && Pow2(k) <= b && (k == n || b < Pow2(k + 1))
  {
    if Pow2(n) <= b then n else IndexFrom(b, n - 1)
  }

  method FindIndex(bsize: nat) returns (bn: nat)
    requires bsize > 0
    ensures bn == SearchIndex(bsize)
  {
    var found := false;
    var tmp := 0x8000;
    bn := NR_OF_MCBSEARCH - 1;
    assert Pow2(15) == 2 * 2 * 2 * Pow2(12) == 8 * 2 * 2 * 2 * Pow2(9) == 64 * 2 * 2 * 2 * Pow2(6)
           == 512 * 2 * 2 * 2 * Pow2(3);
    while !found
      invariant bn < NR_OF_MCBSEARCH && tmp == Pow2(bn)
      invariant IndexFrom(bsize, bn) == SearchIndex(bsize)
      invariant found ==> tmp <= bsize
      decreases !found, bn
    {
      if bsize >= tmp {
        found := true;
      } else {
        tmp := tmp / 2;
        bn := bn - 1;
      }
    }
  }

  // ---------------------------------------------------------------- malloc_init

  function TablePages(total: nat): nat { (total * SIZEOF_MCB + PAGESIZE - 1) / PAGESIZE }

  function InitialEntry(total: nat, i: nat): Mcb {
    Mcb(if i < TablePages(total) then RESERVED else if i >= total then NOTAVAILABLE else FREE, {}, 0, 0)
  }

  function InitialTable(total: nat): Mem {
    seq(TablePages(total) * MCBS_PER_PAGE, i requires i >= 0 => InitialEntry(total, i))
  }

  lemma TableFits(total: nat)
    requires total > 0
    ensures 0 < TablePages(total) <= total <= TablePages(total) * MCBS_PER_PAGE
    ensures total * 16 <= TablePages(total) * 4096 < total * 16 + 4096
  {}

  lemma InitialWellFormed(total: nat)
    requires total > 0
    ensures WellFormed(InitialTable(total)) && Represents(InitialTable(total), map[])
  {
    TableFits(total);
    var m := InitialTable(total);
    forall i | 0 <= i < |m| ensures EntryOk(m, i) { assert m[i] == InitialEntry(total, i); }
    forall p: nat ensures BlockAt(m, p) == None {
      if p / PAGESIZE < |m| { assert m[p / PAGESIZE] == InitialEntry(total, p / PAGESIZE); }
    }
  }

  lemma {:induction false} InitialFreeUpTo(total: nat, k: nat)
    requires total > 0 && k <= |InitialTable(total)|
    ensures FreeBytes(InitialTable(total)[..k]) ==
            (if k <= TablePages(total) then 0 else if k <= total then k - TablePages(total)
             else total - TablePages(total)) * PAGESIZE
  {
    if k > 0 {
      InitialFreeUpTo(total, k - 1);
      var m := InitialTable(total);
      assert m[..k][..k - 1] == m[..k - 1] && m[k - 1] == InitialEntry(total, k - 1);
      TableFits(total);
    }
  }

  lemma InitialFree(total: nat)
    requires total > 0
    ensures FreeBytes(InitialTable(total)) == (total - TablePages(total)) * PAGESIZE
  {
    TableFits(total);
    var m := InitialTable(total);
    InitialFreeUpTo(total, |m|);
    assert m[..|m|] == m;
  }

  // Whatever is allocated, freed and handed over, live blocks are aligned, inside available memory, clear of the MCB
  // array and of each other; and memory is conserved.
  lemma EveryHeap(total: nat, ops: seq<Op>)
    requires total > 0 && CanDoAll(InitialTable(total), ops)
    ensures
      var live := Live(map[], ops);
      && (forall p :: p in live ==> TablePages(total) * PAGESIZE <= p && p + live[p] <= total * PAGESIZE)
      && (forall p :: p in live ==> if live[p] < PAGESIZE then IsSlotSize(live[p]) && p % PAGESIZE % live[p] == 0
                                    else IsRunSize(live[p]) && p % PAGESIZE == 0)
      && (forall p, q :: p in live && q in live && p < q ==> p + live[p] <= q)
    ensures FreeBytes(DoAll(InitialTable(total), ops)) ==
            (total - TablePages(total)) * PAGESIZE - TakenInAll(InitialTable(total), ops)
    ensures total * 16 <= TablePages(total) * 4096 < total * 16 + 4096
  {
    TableFits(total);
    hide WellFormed, FreeBytes, DoAll, Live, BlockAt;
    var m0 := InitialTable(total);
    var m := DoAll(m0, ops);
    var live := Live(map[], ops);
    InitialWellFormed(total);
    InitialFree(total);
    EverySequence(m0, map[], ops);
    forall p | p in live
      ensures TablePages(total) * PAGESIZE <= p && p + live[p] <= total * PAGESIZE
      ensures if live[p] < PAGESIZE then IsSlotSize(live[p]) && p % PAGESIZE % live[p] == 0
              else IsRunSize(live[p]) && p % PAGESIZE == 0
    {
      assert BlockAt(m, p) == Some(live[p]);
      BlockInside(total, m, p);
      BlockAligned(m, p);
    }
    forall p, q | p in live && q in live && p < q ensures p + live[p] <= q {
      assert BlockAt(m, p) == Some(live[p]) && BlockAt(m, q) == Some(live[q]);
      BlocksDisjoint(m, p, q);
    }
  }

  lemma BlockAligned(m: Mem, p: nat)
    requires WellFormed(m) && BlockAt(m, p).Some?
    ensures var b := BlockAt(m, p).value;
      if b < PAGESIZE then IsSlotSize(b) && p % PAGESIZE % b == 0 else IsRunSize(b) && p % PAGESIZE == 0
  {
    hide WellFormed;
    BlockExtent(m, p);
    EntryAt(m, p / PAGESIZE);
  }

  lemma BlockInside(total: nat, m: Mem, p: nat)
    requires total > 0 && WellFormed(m) && SameLimits(InitialTable(total), m) && BlockAt(m, p).Some?
    ensures TablePages(total) * PAGESIZE <= p && p + BlockAt(m, p).value <= total * PAGESIZE
  {
    hide WellFormed;
    var b := BlockAt(m, p).value;
    BlockExtent(m, p);
    var i, last := p / PAGESIZE, (p + b - 1) / PAGESIZE;
    BlockPages(m, p, i);
    BlockPages(m, p, last);
    assert !OffLimits(m, i) && !OffLimits(m, last);
    assert InitialTable(total)[i] == InitialEntry(total, i);
    assert InitialTable(total)[last] == InitialEntry(total, last);
  }

  // ---------------------------------------------------------------- what the searches can find

  // A search for n pages in a row from position start goes once around. It misses runs that end where it gives up:
  // at the last MCB, or at the start position.
  predicate RunInReach(m: Mem, start: nat, n: nat, f: nat) {
    AllFree(m, f, n) && ((start <= f && f + n < |m|) || f + n < start)
  }

  // A free run is out of reach if it ends with the last MCB, or right before the start, or the search starts in it.
  lemma ReachOfRun(m: Mem, start: nat, n: nat, f: nat)
    requires start < |m| && AllFree(m, f, n) && n > 0
    ensures RunInReach(m, start, n, f) <==> f + n != |m| && !(f < start <= f + n)
  {}

  predicate HasRoom(m: Mem, i: nat, b: nat) {
    && i < |m|
    && (m[i].size == FREE
        || (m[i].size == b && IsSlotSize(b) && exists j: nat :: j < PAGESIZE / b && j !in m[i].bitmap))
  }

  // The page looked at last does not count, even if it has room.
  predicate SlotInReach(m: Mem, start: nat, b: nat, i: nat) {
    HasRoom(m, i, b) && i + 1 != start && !(i + 1 == |m| && start == 0)
  }

  ghost predicate InReach(m: Mem, start: nat, b: nat) {
    if b >= PAGESIZE then exists f: nat :: RunInReach(m, start, b / PAGESIZE, f)
    else exists i: nat :: SlotInReach(m, start, b, i)
  }

  // On the way around from start, place f comes before g, or is g.
  predicate Sooner(start: nat, f: nat, g: nat) { if f >= start then g < start || f <= g else g < start && f <= g }

  // What is taken is what the search meets first.
  ghost predicate NextFit(m: Mem, start: nat, b: nat, p: nat) {
    if IsSlotSize(b) then FirstSlot(m, start, b, p / PAGESIZE, p % PAGESIZE / b)
    else FirstRun(m, start, b / PAGESIZE, p / PAGESIZE)
  }

  // A page that is not free ends the run before it.
  lemma NoRunOver(m: Mem, lo: nat, pos: nat, i: nat, n: nat)
    requires lo <= pos <= i < |m| && i < pos + n && m[i].size != FREE
    requires forall f: nat :: lo <= f < pos ==> !AllFree(m, f, n)
    ensures forall f: nat :: lo <= f < i + 1 ==> !AllFree(m, f, n)
  {
    forall f: nat | pos <= f < i + 1 ensures !AllFree(m, f, n) { assert f <= i < f + n; }
  }

  // No run in reach is met sooner than the one at f.
  ghost predicate FirstRun(m: Mem, start: nat, n: nat, f: nat) {
    forall g: nat :: RunInReach(m, start, n, g) ==> Sooner(start, f, g)
  }

  // No page in reach that has room is met sooner than page i, and no slot of it below j is free.
  ghost predicate FirstSlot(m: Mem, start: nat, b: nat, i: nat, j: nat) {
    && i < |m| && (forall k: nat :: SlotInReach(m, start, b, k) ==> Sooner(start, i, k))
    && (if m[i].size == FREE then j == 0 else forall k: nat :: k < j ==> k in m[i].bitmap)
  }

  lemma TableLength(total: nat)
    ensures TablePages(total) == total * SIZEOF_MCB / PAGESIZE + if total * SIZEOF_MCB % PAGESIZE > 0 then 1 else 0
    ensures TablePages(total) * PAGESIZE / SIZEOF_MCB == TablePages(total) * MCBS_PER_PAGE
  {}

  method NewTable(totpages: nat) returns (table: array<Mcb>, mcbpages: nat)
    requires 0 < totpages
    ensures fresh(table) && table[..] == InitialTable(totpages) && mcbpages == TablePages(totpages)
  {
    var mcbsize := totpages * SIZEOF_MCB;
    mcbpages := mcbsize / PAGESIZE;
    if mcbsize % PAGESIZE > 0 { mcbpages := mcbpages + 1; }
    var nr := mcbpages * PAGESIZE / SIZEOF_MCB;
    assert mcbpages == TablePages(totpages) && nr == |InitialTable(totpages)| by { TableLength(totpages); }
    hide TablePages;
    table := new Mcb[nr](_ => Mcb(0, {}, 0, 0));
    for i := 0 to nr
      invariant forall k :: 0 <= k < i ==> table[k] == InitialEntry(totpages, k)
    {
      var size := if i < mcbpages then RESERVED else if i >= totpages then NOTAVAILABLE else FREE;
      table[i] := Mcb(size, {}, 0, 0);
    }
  }

  // Pages already looked at by a search that began at start and is now at i.
  predicate Visited(start: nat, i: nat, wrapped: bool, n: nat, k: nat) {
    if wrapped then start <= k < n || k < i else start <= k < i
  }

  lemma RunReach(m: Mem, start: nat, b: nat, found: Option<nat>)
    requires b >= PAGESIZE
    requires found.None? <==> forall f: nat :: !RunInReach(m, start, b / PAGESIZE, f)
    ensures InReach(m, start, b) <==> found.Some?
  {}

  lemma SlotReach(m: Mem, start: nat, b: nat, found: Option<nat>)
    requires b < PAGESIZE
    requires found.None? <==> forall i: nat :: !SlotInReach(m, start, b, i)
    ensures InReach(m, start, b) <==> found.Some?
  {}

  lemma RunAddress(m: Mem, i: nat, b: nat)
    requires IsRunSize(b) && AllFree(m, i, b / PAGESIZE)
    ensures var p := PAGESIZE * i;
      && CanAlloc(m, p, b) && p / PAGESIZE == i && Allocated(m, p, b) == AllocRun(m, i, b / PAGESIZE)
  {
    hide AllocRun;
  }

  lemma SlotAddressOf(m: Mem, i: nat, j: nat, b: nat)
    requires FreeSlot(m, i, j, b)
    ensures var p := i * PAGESIZE + j * b;
      && CanAlloc(m, p, b) && p / PAGESIZE == i && b / PAGESIZE == 0 && Allocated(m, p, b) == AllocSlot(m, i, j, b)
      && p % PAGESIZE / b == j
  {
    hide AllocSlot;
    SlotOffset(b, j);
    var p := i * PAGESIZE + j * b;
    assert p / PAGESIZE == i && p % PAGESIZE == j * b;
  }

  // Address of the block that free takes the pointer p to mean.
  function HeadOf(m: Mem, p: nat): nat {
    var i := p / PAGESIZE;
    if i < |m| && IsSlotSize(m[i].size) then i * PAGESIZE + p % PAGESIZE / m[i].size * m[i].size else i * PAGESIZE
  }

  // That is the one whose first page, or slot, the pointer lies in, if there is one.
  lemma HeadIs(m: Mem, p: nat, h: nat)
    requires WellFormed(m) && BlockAt(m, h).Some?
    ensures h <= p < h + BlockAt(m, h).value && p / PAGESIZE == h / PAGESIZE <==> HeadOf(m, p) == h
  {
    BlockExtent(m, h);
    EntryAt(m, h / PAGESIZE);
    var i := p / PAGESIZE;
    if i < |m| && IsSlotSize(m[i].size) {
      SlotOfOffset(p % PAGESIZE, m[i].size);
      SlotOffset(m[i].size, p % PAGESIZE / m[i].size);
      if i == h / PAGESIZE { SameSlot(p % PAGESIZE, h % PAGESIZE, m[i].size); }
    }
  }

  lemma SameSlot(x: nat, y: nat, b: nat)
    requires IsSlotSize(b) && x < PAGESIZE && y < PAGESIZE && y % b == 0
    ensures x / b * b == y <==> y <= x < y + b
  {}

  // The pointer lies in the block at h.
  predicate PointsInto(m: Mem, p: nat, h: nat) {
    BlockAt(m, h).Some? && h <= p < h + BlockAt(m, h).value && p / PAGESIZE == h / PAGESIZE
  }

  lemma HeadIsOf(m: Mem, p: nat)
    requires WellFormed(m)
    ensures forall h :: PointsInto(m, p, h) ==> h == HeadOf(m, p)
    ensures BlockAt(m, HeadOf(m, p)).Some? ==> PointsInto(m, p, HeadOf(m, p))
  {
    hide WellFormed, BlockAt, HeadOf;
    forall h | PointsInto(m, p, h) ensures h == HeadOf(m, p) { HeadIs(m, p, h); }
    if BlockAt(m, HeadOf(m, p)).Some? { HeadIs(m, p, HeadOf(m, p)); }
  }

  lemma NotABlock(m: Mem, p: nat)
    ensures
      var i := p / PAGESIZE;
      i >= |m| || m[i].size in {NOTAVAILABLE, FREE, CONTINUED, RESERVED} ==> BlockAt(m, HeadOf(m, p)) == None
  {
    assert p / PAGESIZE * PAGESIZE / PAGESIZE == p / PAGESIZE;
  }

  lemma RunHead(m: Mem, p: nat)
    requires WellFormed(m) && p / PAGESIZE < |m|
    requires m[p / PAGESIZE].size == VMOBJECT_PAGE || m[p / PAGESIZE].size >= PAGESIZE
    ensures var i, e := p / PAGESIZE, m[p / PAGESIZE];
      var b := if e.size == VMOBJECT_PAGE then PAGESIZE else e.size;
      && HeadOf(m, p) == i * PAGESIZE && BlockAt(m, i * PAGESIZE) == Some(b) && b % PAGESIZE == 0
      && i + b / PAGESIZE <= |m|
      && forall k :: i < k < i + b / PAGESIZE ==> m[k].size == CONTINUED
  {
    EntryAt(m, p / PAGESIZE);
  }

  lemma SlotHead(m: Mem, p: nat)
    requires p / PAGESIZE < |m| && IsSlotSize(m[p / PAGESIZE].size)
    ensures var i, b := p / PAGESIZE, m[p / PAGESIZE].size;
      && HeadOf(m, p) / PAGESIZE == i && HeadOf(m, p) % PAGESIZE / b == (p - i * PAGESIZE) / b
      && (p - i * PAGESIZE) / b >= 0
      && BlockAt(m, HeadOf(m, p)) == if (p - i * PAGESIZE) / b in m[i].bitmap then Some(b) else None
  {
    var i, b := p / PAGESIZE, m[p / PAGESIZE].size;
    SlotOfOffset(p % PAGESIZE, b);
    SlotOffset(b, p % PAGESIZE / b);
  }

  lemma SlotOfOffset(off: nat, b: nat)
    requires IsSlotSize(b) && off < PAGESIZE
    ensures off / b < PAGESIZE / b
  {}

  lemma FreedRunIs(m: Mem, i: nat, h: nat, b: nat)
    requires i < |m| && h == i * PAGESIZE && !IsSlotSize(m[i].size) && b % PAGESIZE == 0 && b > 0
    requires BlockAt(m, h) == Some(b) && i + b / PAGESIZE <= |m|
    ensures h / PAGESIZE == i
    ensures Freed(m, h) == Marked(m[i := m[i].(size := FREE, bitmap := {})], i + 1, i + b / PAGESIZE, FREE)
  {}

  lemma FreedSlotIs(m: Mem, i: nat, h: nat)
    requires i < |m| && h / PAGESIZE == i && IsSlotSize(m[i].size) && BlockAt(m, h) == Some(m[i].size)
    ensures h / PAGESIZE + m[i].size / PAGESIZE <= |m|
    ensures
      var left := m[i].bitmap - {h % PAGESIZE / m[i].size};
      Freed(m, h) == m[i := m[i].(bitmap := left, size := if left == {} then FREE else m[i].size)]
  {}

  // NULL does not mean that memory is full: of 1 MB of which nothing is allocated yet, malloc does not find all 255
  // pages that are free, since they end with the last MCB.
  lemma SearchCanMiss()
    ensures
      var m, b := InitialTable(256), BlockSize(255 * PAGESIZE);
      && |m| == 256 && WellFormed(m) && FreeBytes(m) == 255 * PAGESIZE && AllFree(m, 1, 255)
      && b == 255 * PAGESIZE && !InReach(m, 0, b)
  {
    var m := InitialTable(256);
    InitialWellFormed(256);
    InitialFree(256);
    assert TablePages(256) == 1;
    forall k | 0 <= k < |m| ensures m[k] == InitialEntry(256, k) {}
    forall f: nat ensures !RunInReach(m, 0, 255, f) { assert m[0].size == RESERVED; }
  }

  class Allocator {
    const mcb: array<Mcb>            // first_mcb
    const searchPos: array<nat>      // malloc_mcbsearch_pos
    var totalFree: int
    var totalAvailable: int
    var totalRequested: nat
    var totalAllocated: nat

    ghost predicate Valid()
      reads this, mcb, searchPos
    {
      && WellFormed(mcb[..])
      && searchPos.Length == NR_OF_MCBSEARCH
      && (forall n :: 0 <= n < NR_OF_MCBSEARCH ==> searchPos[n] < mcb.Length)
      && totalFree == FreeBytes(mcb[..])
    }

    // The search for a block of this size, from where the last one ended, meets one.
    ghost predicate CanServe(len: nat)
      reads mcb, searchPos
      requires 0 < len < WORD
    {
      var b := BlockSize(len);
      && b > 0 && SearchIndex(b) < searchPos.Length && InReach(mcb[..], searchPos[SearchIndex(b)], b)
    }

    // malloc_init
    constructor (firstAddr: nat, lastAddr: nat)
      requires firstAddr % PAGESIZE == 0 && lastAddr % PAGESIZE == 0 && firstAddr < lastAddr < WORD
      ensures Valid() && fresh(mcb) && fresh(searchPos)
      ensures mcb[..] == InitialTable((lastAddr - firstAddr) / PAGESIZE)
      ensures totalFree == totalAvailable
    {
      var totpages := (lastAddr - firstAddr) / PAGESIZE;
      var table, mcbpages := NewTable(totpages);
      var avail := lastAddr - firstAddr - mcbpages * PAGESIZE;
      var pos := new nat[NR_OF_MCBSEARCH](_ => 0);
      mcb, searchPos := table, pos;
      totalAvailable, totalFree := avail, avail;
      totalRequested, totalAllocated := 0, 0;
      InitialWellFormed(totpages);
      InitialFree(totpages);
      TableFits(totpages);
    }

    // The multi-page search of malloc.
    method FindRun(start: nat, tofind: nat) returns (foundpos: Option<nat>, i: nat)
      requires start < mcb.Length && tofind > 0
      ensures foundpos.None? <==> forall f: nat :: !RunInReach(mcb[..], start, tofind, f)
      ensures foundpos.Some? ==> RunInReach(mcb[..], start, tofind, foundpos.value) && i == foundpos.value + tofind
                                 && FirstRun(mcb[..], start, tofind, foundpos.value)
    {
      i := start;
      var found: nat, pos: nat := 0, start;
      ghost var wrapped := false;
      ghost var m := mcb[..];
      while found < tofind
        invariant 0 <= i < |m| && 0 <= found <= tofind && pos + found == i
        invariant if wrapped then i < start else start <= pos && (found == 0 || i > start)
        invariant forall k :: pos <= k < i ==> m[k].size == FREE
        invariant wrapped ==> forall f: nat :: start <= f && f + tofind < |m| ==> !AllFree(m, f, tofind)
        invariant forall f: nat :: (if wrapped then 0 else start) <= f < pos ==> !AllFree(m, f, tofind)
        decreases if wrapped then start - i else |m| - i + start, tofind - found
      {
        ghost var lo := if wrapped then 0 else start;
        if mcb[i].size == FREE {
          found := found + 1;
          i := i + 1;
        } else {
          NoRunOver(m, lo, pos, i, tofind);
          found := 0;
          i := i + 1;
          pos := i;
        }
        if i >= mcb.Length {
          i := 0;
          found := 0;
          pos := i;
          wrapped := true;
        }
        if i == start {
          forall f: nat ensures !RunInReach(m, start, tofind, f) {
            assert wrapped && (start == 0 || lo == 0);
            assert f + tofind < start ==> !AllFree(m, f, tofind);
          }
          return None, i;
        }
      }
      assert RunInReach(mcb[..], start, tofind, pos);
      return Some(pos), i;
    }

    // The sub-page search: a free page, or one of this block size with a free slot.
    method FindSlot(start: nat, bsize: nat) returns (foundpos: Option<nat>, foundbit: nat)
      requires start < mcb.Length && IsSlotSize(bsize)
      ensures foundpos.None? <==> forall i: nat :: !SlotInReach(mcb[..], start, bsize, i)
      ensures foundpos.Some? ==> SlotInReach(mcb[..], start, bsize, foundpos.value)
                                 && FreeSlot(mcb[..], foundpos.value, foundbit, bsize)
                                 && FirstSlot(mcb[..], start, bsize, foundpos.value, foundbit)
    {
      var mcbbits := PAGESIZE / bsize;
      var i, found, pos: nat := start, false, start;
      foundbit := 0;
      ghost var wrapped := false;
      ghost var m := mcb[..];
      while !found
        invariant 0 <= i < |m| && (if wrapped then i < start else start <= i)
        invariant found ==> FreeSlot(m, pos, foundbit, bsize) && pos + 1 != start && !(pos + 1 == |m| && start == 0)
                            && FirstSlot(m, start, bsize, pos, foundbit)
        invariant !found ==> foundbit == 0
        invariant !found ==> forall k: nat :: Visited(start, i, wrapped, |m|, k) ==> !HasRoom(m, k, bsize)
        decreases if wrapped then start - i else |m| - i + start, !found
      {
        if mcb[i].size == FREE {
          found, pos := true, i;
          assert FreeSlot(m, i, foundbit, bsize);
        } else if mcb[i].size == bsize {
          var j := 0;
          while j < mcbbits
            invariant j >= 0 && (found ==> j == mcbbits + 1)
            invariant !found ==> foundbit == 0 && j <= mcbbits && forall k: nat :: k < j ==> k in m[i].bitmap
            invariant found ==> pos == i && FreeSlot(m, pos, foundbit, bsize)
                                && forall k: nat :: k < foundbit ==> k in m[i].bitmap
          {
            if j !in mcb[i].bitmap {
              pos, foundbit, found := i, j, true;
              j := mcbbits;
            }
            j := j + 1;
          }
        }
        assert !found ==> !HasRoom(m, i, bsize);
        i := i + 1;
        if i >= mcb.Length {
          i := 0;
          wrapped := true;
        }
        if i == start {
          assert !exists k: nat :: SlotInReach(m, start, bsize, k);
          return None, foundbit;
        }
      }
      assert SlotInReach(m, start, bsize, pos);
      return Some(pos), foundbit;
    }

    // Marks n free pages from pos as one block.
    method TakeRun(pos: nat, n: nat)
      requires n > 0 && AllFree(mcb[..], pos, n)
      modifies mcb
      ensures mcb[..] == AllocRun(old(mcb[..]), pos, n)
    {
      ghost var m := mcb[..];
      mcb[pos] := mcb[pos].(size := n * PAGESIZE);
      for i := pos + 1 to pos + n
        invariant forall k :: 0 <= k < mcb.Length ==>
                                mcb[k] == if k == pos then m[k].(size := n * PAGESIZE)
                                          else if pos < k < i then m[k].(size := CONTINUED) else m[k]
      {
        mcb[i] := mcb[i].(size := CONTINUED);
      }
    }

    method TakeSlot(pos: nat, bit: nat, bsize: nat) returns (p: nat)
      requires WellFormed(mcb[..]) && FreeSlot(mcb[..], pos, bit, bsize)
      modifies mcb
      ensures mcb[..] == AllocSlot(old(mcb[..]), pos, bit, bsize)
      ensures p == pos * PAGESIZE + bit * bsize
    {
      if mcb[pos].size == FREE {
        mcb[pos] := mcb[pos].(size := bsize, bitmap := {0});
        p := PAGESIZE * pos;
      } else {
        mcb[pos] := mcb[pos].(bitmap := mcb[pos].bitmap + {bit});
        p := PAGESIZE * pos + bsize * bit;
      }
    }

    // What a search that succeeds, or fails, does to the allocator.
    twostate predicate Placed(bsize: nat, bn: nat, new p: Option<nat>)
      requires bn < searchPos.Length && mcb.Length > 0
      reads mcb, searchPos
    {
      && (p.Some? <==> InReach(old(mcb[..]), old(searchPos[bn]), bsize))
      && match p
         case None => mcb[..] == old(mcb[..]) && searchPos[..] == old(searchPos[..])
         case Some(q) =>
           && CanAlloc(old(mcb[..]), q, bsize) && mcb[..] == Allocated(old(mcb[..]), q, bsize)
           && NextFit(old(mcb[..]), old(searchPos[bn]), bsize, q)
           && searchPos[..] == old(searchPos[..])[bn := q / PAGESIZE + bsize / PAGESIZE]
           && searchPos[bn] < mcb.Length
    }

    method PlaceRun(bsize: nat, bn: nat) returns (p: Option<nat>)
      requires IsRunSize(bsize) && bn < searchPos.Length && searchPos[bn] < mcb.Length
      modifies mcb, searchPos
      ensures Placed(bsize, bn, p)
    {
      hide AllocRun, CanAlloc, Allocated, AllFree, FirstRun;
      var start := searchPos[bn];
      ghost var m := mcb[..];
      var tofind := bsize / PAGESIZE;
      var foundpos, i := FindRun(start, tofind);
      assert mcb[..] == m;
      RunReach(m, start, bsize, foundpos);
      if foundpos.None? { return None; }
      searchPos[bn] := i;
      RunAddress(m, foundpos.value, bsize);
      TakeRun(foundpos.value, tofind);
      return Some(PAGESIZE * foundpos.value);
    }

    method PlaceSlot(bsize: nat, bn: nat) returns (p: Option<nat>)
      requires WellFormed(mcb[..]) && IsSlotSize(bsize) && bn < searchPos.Length && searchPos[bn] < mcb.Length
      modifies mcb, searchPos
      ensures Placed(bsize, bn, p)
    {
      hide WellFormed, AllocSlot, CanAlloc, Allocated, FirstSlot;
      var start := searchPos[bn];
      ghost var m := mcb[..];
      var foundpos, foundbit := FindSlot(start, bsize);
      assert mcb[..] == m;
      SlotReach(m, start, bsize, foundpos);
      if foundpos.None? { return None; }
      searchPos[bn] := foundpos.value;
      SlotAddressOf(m, foundpos.value, foundbit, bsize);
      var q := TakeSlot(foundpos.value, foundbit, bsize);
      return Some(q);
    }

    // Search, mark and count, by one of the two methods.
    method Place(bsize: nat, bn: nat) returns (p: Option<nat>)
      requires Valid() && bn < NR_OF_MCBSEARCH && (IsSlotSize(bsize) || IsRunSize(bsize))
      modifies this`totalFree, this`totalAllocated, mcb, searchPos
      ensures Valid() && Placed(bsize, bn, p)
      ensures p.Some? <==> old(InReach(mcb[..], searchPos[bn], bsize))
      ensures p.None? ==> mcb[..] == old(mcb[..]) && searchPos[..] == old(searchPos[..])
      ensures totalAllocated == old(totalAllocated) + if p.None? then 0 else bsize
    {
      hide WellFormed, FreeBytes, InReach, CanAlloc, Allocated, BlockAt, Freed, NextFit;
      if bsize >= PAGESIZE {
        p := PlaceRun(bsize, bn);
      } else {
        p := PlaceSlot(bsize, bn);
      }
      if p.None? { return; }
      AllocatedKeeps(old(mcb[..]), p.value, bsize);
      totalAllocated := totalAllocated + bsize;
      totalFree := totalFree - bsize;
    }

    // A block found is one that was free; the requests that fail are exactly those with nothing in reach.
    method Malloc(len: nat) returns (p: Option<nat>)
      requires Valid() && len <= WORD - PAGESIZE
      modifies this, mcb, searchPos
      ensures Valid()
      ensures len == 0 ==> p == None && mcb[..] == old(mcb[..]) && searchPos[..] == old(searchPos[..])
      ensures len > 0 ==> Placed(BlockSize(len), SearchIndex(BlockSize(len)), p)
      ensures len > 0 ==> (p.Some? <==> old(CanServe(len))) && (p.None? ==> !CanServe(len))
      ensures totalAllocated == old(totalAllocated) + if p.None? then 0 else BlockSize(len)
      ensures totalRequested == old(totalRequested) + len && totalAvailable == old(totalAvailable)
    {
      if len == 0 { return None; }
      hide Placed, WellFormed, FreeBytes, BlockSize, SearchIndex, InReach;
      totalRequested := totalRequested + len;
      BlockSizeFits(len);
      var bsize := RoundUp(len);
      var bn := FindIndex(bsize);
      p := Place(bsize, bn);
    }

    // Sets pages i + 1 .. i + n free, last one first. False stands for the panic on a corrupt chain.
    method ReleasePages(i: nat, n: nat) returns (ok: bool)
      requires n > 0 && i + n <= mcb.Length
      requires forall k :: i < k < i + n ==> mcb[k].size == CONTINUED
      modifies mcb
      ensures ok && mcb[..] == Marked(old(mcb[..]), i + 1, i + n, FREE)
    {
      var j := n + i - 1;
      ghost var m := mcb[..];
      while j > i
        invariant i <= j < i + n
        invariant forall k :: 0 <= k < mcb.Length ==> mcb[k] == if j < k < i + n then m[k].(size := FREE) else m[k]
      {
        if mcb[j].size != CONTINUED { return false; }
        mcb[j] := mcb[j].(size := FREE);
        j := j - 1;
      }
      return true;
    }

    // False stands for the panics. The pointer may lie anywhere in the first page, or the slot, of the block.
    method Free(p: nat) returns (ok: bool)
      requires Valid()
      modifies this`totalFree, mcb
      ensures Valid()
      ensures ok <==> BlockAt(old(mcb[..]), HeadOf(old(mcb[..]), p)).Some?
      ensures !ok ==> mcb[..] == old(mcb[..])
      ensures ok ==> var h := HeadOf(old(mcb[..]), p);
                     && h / PAGESIZE + BlockAt(old(mcb[..]), h).value / PAGESIZE <= mcb.Length
                     && mcb[..] == Freed(old(mcb[..]), h)
      ensures forall h :: PointsInto(old(mcb[..]), p, h) ==> ok && h == HeadOf(old(mcb[..]), p)
      ensures ok ==> PointsInto(old(mcb[..]), p, HeadOf(old(mcb[..]), p))
    {
      hide WellFormed, FreeBytes, BlockAt, HeadOf, Freed;
      ghost var m, h := mcb[..], HeadOf(mcb[..], p);
      HeadIsOf(m, p);
      var i := p / PAGESIZE;
      NotABlock(m, p);
      if i >= mcb.Length { return false; }
      var bsize := mcb[i].size;
      if bsize == NOTAVAILABLE || bsize == FREE || bsize == CONTINUED || bsize == RESERVED { return false; }
      if bsize == VMOBJECT_PAGE { bsize := PAGESIZE; }
      EntryAt(m, i);
      if bsize >= PAGESIZE {
        RunHead(m, p);
        mcb[i] := mcb[i].(size := FREE, bitmap := {});
        assert mcb[..] == m[i := m[i].(size := FREE, bitmap := {})];
        ok := ReleasePages(i, bsize / PAGESIZE);
        FreedRunIs(m, i, h, bsize);
        assert mcb[..] == Freed(m, h);
      } else {
        var boffset := p - i * PAGESIZE;
        var bitnum := boffset / bsize;
        SlotHead(m, p);
        if bitnum !in mcb[i].bitmap { return false; }
        mcb[i] := mcb[i].(bitmap := mcb[i].bitmap - {bitnum});
        if mcb[i].bitmap == {} { mcb[i] := mcb[i].(size := FREE); }
        FreedSlotIs(m, i, h);
        assert mcb[..] == Freed(m, h);
        ok := true;
      }
      FreedFits(m, h);
      FreedWellFormed(m, h);
      FreedFree(m, h);
      totalFree := totalFree + bsize;
    }
  }
}
