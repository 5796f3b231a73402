/** arch/i386/pmap.c: page tables in two levels (section 5.2 of the Intel 80386 Programmer's Reference Manual), and the
    flat map from user pages to frames that the rest of the kernel takes them for. */
module Pmap {
  import opened Basics
  import opened VmModel

  const PAGESIZE := 4096
  const WORD := 0x1_0000_0000
  const ENTRIES := 1024
  const LINEAR := ENTRIES * ENTRIES    // pages of the linear address space

  // An entry of either level: page frame address, and the bits Present, Read/Write and User/Supervisor.
  datatype Word = Word(frame: nat, p: bool, w: bool, u: bool)

  const ZERO := Word(0, false, false, false)

  function Masked(e: Word, p: bool, w: bool, u: bool): Word {
    Word(e.frame, e.p && !p, e.w && !w, e.u && !u)
  }

  type Table = seq<Word>

  // ---------------------------------------------------------------- the flat map

  // Entry for page n of the linear address space.
  function EntryAt(dir: Table, tables: map<nat, Table>, n: nat): Word
    requires |dir| == ENTRIES
  {
    var d, t := n / ENTRIES % ENTRIES, n % ENTRIES;
    if dir[d].frame in tables && |tables[dir[d].frame]| == ENTRIES then tables[dir[d].frame][t] else ZERO
  }

  // The first `kernel` entries of a directory lead to the tables that map physical memory, which all processes share;
  // the others belong to the process.
  predicate UserTables(dir: Table, tables: map<nat, Table>, kernel: nat)
    requires |dir| == ENTRIES && kernel <= ENTRIES
  {
    && (forall i :: 0 <= i < kernel ==> dir[i].frame in tables)
    && (forall i :: kernel <= i < ENTRIES ==>
          dir[i] == ZERO || (dir[i].frame in tables && dir[i] == Word(dir[i].frame, true, true, true)))
    && (forall i, j :: 0 <= i < ENTRIES && 0 <= j < ENTRIES && i != j && dir[i].frame != 0 ==>
          dir[j].frame != dir[i].frame)
    && 0 !in tables && forall f :: f in tables ==> |tables[f]| == ENTRIES
  }

  // What machdep_vm_init has made: each of the kernel's directory entries leads to a table of its own.
  predicate KernelTables(kernelDir: Table, tables: map<nat, Table>, kernel: nat)
    requires |kernelDir| == ENTRIES && kernel <= ENTRIES
  {
    && (forall i :: 0 <= i < kernel ==> kernelDir[i].frame in tables)
    && (forall i, j :: 0 <= i < j < kernel ==> kernelDir[i].frame != kernelDir[j].frame)
    && 0 !in tables && forall f :: f in tables ==> |tables[f]| == ENTRIES
  }

  // Changing an entry of one table changes one page.
  lemma OneEntry(dir: Table, tables: map<nat, Table>, kernel: nat, n: nat, e: Word, m: nat)
    requires |dir| == ENTRIES && kernel <= ENTRIES && UserTables(dir, tables, kernel)
    requires n < LINEAR && dir[n / ENTRIES].frame != 0 && m < LINEAR
    ensures dir[n / ENTRIES].frame in tables && n / ENTRIES < ENTRIES
    ensures
      var f := dir[n / ENTRIES].frame;
      EntryAt(dir, tables[f := tables[f][n % ENTRIES := e]], m) == if m == n then e else EntryAt(dir, tables, m)
  {
    var d := n / ENTRIES;
    assert d < ENTRIES && m / ENTRIES < ENTRIES;
    TableOf(dir, tables, kernel, d);
    if m / ENTRIES != d { assert dir[m / ENTRIES].frame != dir[d].frame; }
    else { assert m == d * ENTRIES + m % ENTRIES && n == d * ENTRIES + n % ENTRIES; }
  }

  // Giving a process a new, empty table changes no page.
  lemma NewTable(dir: Table, tables: map<nat, Table>, kernel: nat, d: nat, f: nat, m: nat)
    requires |dir| == ENTRIES && kernel <= ENTRIES && UserTables(dir, tables, kernel)
    requires kernel <= d < ENTRIES && dir[d] == ZERO && f !in tables && f != 0 && m < LINEAR
    requires forall i :: 0 <= i < ENTRIES ==> dir[i].frame != f
    ensures
      var dir', tables' := dir[d := Word(f, true, true, true)], tables[f := seq(ENTRIES, _ => ZERO)];
      UserTables(dir', tables', kernel) && EntryAt(dir', tables', m) == EntryAt(dir, tables, m)
  {}

  // User pages.
  function PagesAbove(kernel: nat): nat { if kernel <= ENTRIES then LINEAR - kernel * ENTRIES else 0 }

  // Only a range that starts in userland spares the kernel's pages: pmap_markpages does not clip the start.
  predicate UserAddress(kernel: nat, addr: nat) { addr / PAGESIZE < PagesAbove(kernel) }

  // The pages of the linear address space that pmap_markpages marks: from the first one to the one before the end.
  function FirstLinear(kernel: nat, startAddr: nat): nat { (startAddr / PAGESIZE + kernel * ENTRIES) % LINEAR }

  function EndLinear(kernel: nat, startAddr: nat, endAddr: nat): nat {
    if !UserAddress(kernel, startAddr) then LINEAR
    else LastUser(kernel, startAddr, endAddr) + 1 + kernel * ENTRIES
  }

  // The user pages among them.
  function FirstUser(kernel: nat, startAddr: nat): nat {
    if !UserAddress(kernel, startAddr) then 0 else startAddr / PAGESIZE
  }

  function LastUser(kernel: nat, startAddr: nat, endAddr: nat): nat {
    if PagesAbove(kernel) > 0 && (!UserAddress(kernel, startAddr) || endAddr / PAGESIZE >= PagesAbove(kernel))
    then PagesAbove(kernel) - 1 else endAddr / PAGESIZE
  }

  // The kernel's pages are present and can be written.
  ghost predicate KernelWhole(dir: Table, tables: map<nat, Table>, kernel: nat)
    requires |dir| == ENTRIES
  {
    forall n: nat :: n < kernel * ENTRIES ==> EntryAt(dir, tables, n).p && EntryAt(dir, tables, n).w
  }

  function UserEntry(dir: Table, tables: map<nat, Table>, kernel: nat, vp: nat): Word
    requires |dir| == ENTRIES
  {
    EntryAt(dir, tables, vp + kernel * ENTRIES)
  }

  function PteOf(e: Word): Pte { Pte(e.frame, e.w) }

  // The present entries of user pages.
  function PresentIn(dir: Table, tables: map<nat, Table>, kernel: nat): map<nat, Pte>
    requires |dir| == ENTRIES
  {
    map vp: nat | vp < PagesAbove(kernel)
      && UserEntry(dir, tables, kernel, vp).p :: PteOf(UserEntry(dir, tables, kernel, vp))
  }

  // Every entry of the linear address space is as before, but that for page n.
  ghost predicate OneChanged(dir: Table, tables: map<nat, Table>, dir': Table, tables': map<nat, Table>, n: nat,
                             e: Word)
    requires |dir| == ENTRIES && |dir'| == ENTRIES
  {
    forall m: nat :: m < LINEAR ==> EntryAt(dir', tables', m) == if m == n then e else EntryAt(dir, tables, m)
  }

  ghost predicate NoneChanged(dir: Table, tables: map<nat, Table>, dir': Table, tables': map<nat, Table>)
    requires |dir| == ENTRIES && |dir'| == ENTRIES
  {
    forall m: nat :: m < LINEAR ==> EntryAt(dir', tables', m) == EntryAt(dir, tables, m)
  }

  lemma PresentSet(dir: Table, tables: map<nat, Table>, dir': Table, tables': map<nat, Table>, kernel: nat, vp: nat,
                   e: Word)
    requires |dir| == ENTRIES && |dir'| == ENTRIES && kernel <= ENTRIES && vp < PagesAbove(kernel) && e.p
    requires OneChanged(dir, tables, dir', tables', vp + kernel * ENTRIES, e)
    ensures PresentIn(dir', tables', kernel) == PresentIn(dir, tables, kernel)[vp := PteOf(e)]
  {
    hide EntryAt;
    forall v: nat | v < PagesAbove(kernel)
      ensures UserEntry(dir', tables', kernel, v) == if v == vp then e else UserEntry(dir, tables, kernel, v)
    {
      assert v + kernel * ENTRIES < LINEAR;
    }
  }

  lemma EntrySet(dir: Table, tables: map<nat, Table>, kernel: nat, n: nat, e: Word)
    requires |dir| == ENTRIES && kernel <= ENTRIES && UserTables(dir, tables, kernel)
    requires n < LINEAR && dir[n / ENTRIES].frame != 0
    ensures dir[n / ENTRIES].frame in tables && |tables[dir[n / ENTRIES].frame]| == ENTRIES
    ensures
      var f := dir[n / ENTRIES].frame;
      var tables' := tables[f := tables[f][n % ENTRIES := e]];
      OneChanged(dir, tables, dir, tables', n, e) && UserTables(dir, tables', kernel)
  {
    TableOf(dir, tables, kernel, n / ENTRIES);
    forall m: nat | m < LINEAR
      ensures
        var f := dir[n / ENTRIES].frame;
        EntryAt(dir, tables[f := tables[f][n % ENTRIES := e]], m) == if m == n then e else EntryAt(dir, tables, m)
    {
      OneEntry(dir, tables, kernel, n, e, m);
    }
  }

  lemma NewTableKeeps(dir: Table, tables: map<nat, Table>, kernel: nat, d: nat, f: nat)
    requires |dir| == ENTRIES && kernel <= ENTRIES && UserTables(dir, tables, kernel)
    requires kernel <= d < ENTRIES && dir[d] == ZERO && f !in tables && f != 0
    requires forall i :: 0 <= i < ENTRIES ==> dir[i].frame != f
    ensures
      var dir', tables' := dir[d := Word(f, true, true, true)], tables[f := seq(ENTRIES, _ => ZERO)];
      UserTables(dir', tables', kernel) && NoneChanged(dir, tables, dir', tables')
  {
    var dir', tables' := dir[d := Word(f, true, true, true)], tables[f := seq(ENTRIES, _ => ZERO)];
    forall m: nat | m < LINEAR ensures EntryAt(dir', tables', m) == EntryAt(dir, tables, m) {
      NewTable(dir, tables, kernel, d, f, m);
    }
    NewTable(dir, tables, kernel, d, f, 0);
  }

  lemma ThenOne(dir: Table, tables: map<nat, Table>, dir1: Table, tables1: map<nat, Table>,
                dir2: Table, tables2: map<nat, Table>, n: nat, e: Word)
    requires |dir| == ENTRIES && |dir1| == ENTRIES && |dir2| == ENTRIES
    requires NoneChanged(dir, tables, dir1, tables1) && OneChanged(dir1, tables1, dir2, tables2, n, e)
    ensures OneChanged(dir, tables, dir2, tables2, n, e)
  {
    hide EntryAt;
  }

  lemma LinearAddress(kernel: nat, va: nat)
    requires 0 < kernel < ENTRIES && UserAddress(kernel, va)
    ensures var linear, n := va + kernel * 0x400000, va / PAGESIZE + kernel * ENTRIES;
      && linear % WORD == linear && linear / PAGESIZE == n < LINEAR && linear / 0x400000 == n / ENTRIES
      && kernel <= n / ENTRIES < ENTRIES
  {
    var n := va / PAGESIZE + kernel * ENTRIES;
    assert va == va / PAGESIZE * PAGESIZE + va % PAGESIZE;
    assert va + kernel * 0x400000 == n * PAGESIZE + va % PAGESIZE;
  }

  class PageDirectory {
    const kernel: nat                    // userland_startaddr in units of 4 MB
    const kernelDir: Table               // i386_kernel_pagedir
    const dir: array<Word>
    var tables: map<nat, Table>          // pages that hold page tables

    ghost predicate Valid()
      reads this, dir
    {
      && dir.Length == ENTRIES && |kernelDir| == ENTRIES && 0 < kernel < ENTRIES
      && (forall i :: 0 <= i < kernel ==> dir[i] == kernelDir[i])
      && UserTables(dir[..], tables, kernel) && AllSane(dir[..], tables, kernel)
    }

    // The entry of a user page.
    ghost function Entry(vp: nat): Word
      reads this, dir
      requires dir.Length == ENTRIES
    {
      UserEntry(dir[..], tables, kernel, vp)
    }

    ghost function UserPages(): int { LINEAR - kernel * ENTRIES }

    // The directory entry above it lets the process read and write; what it may do is then up to the page's own entry.
    ghost predicate TableOpen(vp: nat)
      reads dir
      requires dir.Length == ENTRIES && vp < LINEAR - kernel * ENTRIES
    {
      var d := dir[(vp + kernel * ENTRIES) / ENTRIES];
      d.p && d.w && d.u
    }

    // What the memory management unit translates: the present entries.
    ghost function Present(): map<nat, Pte>
      reads this, dir
      requires dir.Length == ENTRIES
    {
      PresentIn(dir[..], tables, kernel)
    }

    // Nothing of the kernel's part of the address space has changed.
    twostate predicate KernelKept()
      reads this, dir
    {
      && dir.Length == ENTRIES && kernel <= ENTRIES
      && (forall i :: 0 <= i < kernel ==> dir[i] == old(dir[i]))
      && SameBelow(old(dir[..]), old(tables), dir[..], tables, kernel)
    }

    // machdep_pagedir_init
    constructor (kernel: nat, kernelDir: Table, tables: map<nat, Table>)
      requires 0 < kernel < ENTRIES && |kernelDir| == ENTRIES && KernelTables(kernelDir, tables, kernel)
      ensures Valid() && this.kernel == kernel && this.kernelDir == kernelDir && this.tables == tables && fresh(dir)
      ensures Present() == map[] && forall i :: 0 <= i < ENTRIES ==> dir[i] == if i < kernel then kernelDir[i] else ZERO
    {
      var pagedir := new Word[ENTRIES](_ => ZERO);
      var i := kernel;
      while i > 0
        invariant 0 <= i <= kernel
        invariant forall k :: 0 <= k < ENTRIES ==> pagedir[k] == if i <= k < kernel then kernelDir[k] else ZERO
      {
        i := i - 1;
        pagedir[i] := kernelDir[i];
      }
      hide UserTables, AllSane, PresentIn;
      this.kernel, this.kernelDir, this.tables, dir := kernel, kernelDir, tables, pagedir;
      new;
      EmptyDirectory(dir[..], tables, kernel);
    }

    // The two indices of the linear address of a user address.
    method Indices(va: nat) returns (d: nat, t: nat)
      requires 0 < kernel < ENTRIES && UserAddress(kernel, va)
      ensures var n := va / PAGESIZE + kernel * ENTRIES;
        d == n / ENTRIES && t == n % ENTRIES && kernel <= d < ENTRIES && n < LINEAR
    {
      LinearAddress(kernel, va);
      var linear := (va + kernel * 0x400000) % WORD;
      d := linear / 0x400000 % ENTRIES;
      t := linear / PAGESIZE % ENTRIES;
    }

    // pmap_mappage. newTable is what malloc gives for a page table, if one is needed.
    method MapPage(va: nat, frame: nat, writable: bool, newTable: Option<nat>) returns (ok: bool)
      requires Valid() && UserAddress(kernel, va)
      requires newTable.Some? ==> newTable.value != 0 && newTable.value !in tables
                                  && forall i :: 0 <= i < ENTRIES ==> dir[i].frame != newTable.value
      modifies this`tables, dir
      ensures Valid() && KernelKept()
      ensures ok <==> newTable.Some? || old(dir[(va / PAGESIZE + kernel * ENTRIES) / ENTRIES]) != ZERO
      ensures tables.Keys == old(tables.Keys) + if ok && old(dir[(va / PAGESIZE + kernel * ENTRIES) / ENTRIES]) == ZERO
                                                then {newTable.value} else {}
      ensures !ok ==> Present() == old(Present())
      ensures ok ==> Present() == old(Present())[va / PAGESIZE := Pte(frame, writable)]
      ensures ok ==> Entry(va / PAGESIZE) == Word(frame, true, writable, true) && TableOpen(va / PAGESIZE)
      ensures forall vp: nat {:trigger Entry(vp)} :: vp < UserPages() && (ok ==> vp != va / PAGESIZE) ==>
                Entry(vp) == old(Entry(vp))
    {
      hide EntryAt, UserTables, PresentIn, OneChanged, NoneChanged, AllSane;
      var d, t := Indices(va);
      ghost var dir0, tables0, vp := dir[..], tables, va / PAGESIZE;
      assert NoneChanged(dir0, tables0, dir[..], tables) by { NothingChanged(dir0, tables0); }
      if dir[d] == ZERO {
        if newTable.None? {
          KernelSame(dir0, tables0, dir[..], tables, kernel);
          SameEntries(dir0, tables0, dir[..], tables, kernel);
          return false;
        }
        AddTable(d, newTable.value);
      }
      ghost var dir1, tables1 := dir[..], tables;
      assert dir[d] == dir1[d];
      FrameZero(dir1, tables1, kernel, d);
      SetEntry(vp + kernel * ENTRIES, d, t, Word(frame, true, writable, true));
      ThenOne(dir0, tables0, dir1, tables1, dir[..], tables, vp + kernel * ENTRIES, Word(frame, true, writable, true));
      PresentSet(dir0, tables0, dir[..], tables, kernel, vp, Word(frame, true, writable, true));
      OneAbove(dir0, tables0, dir[..], tables, kernel, vp, Word(frame, true, writable, true));
      EntriesBut(dir0, tables0, dir[..], tables, kernel, vp, Word(frame, true, writable, true));
      OpenTable(dir[..], tables, kernel, d);
      ok := true;
    }

    // A new page table, empty, for a directory entry that has none.
    method AddTable(d: nat, f: nat)
      requires Valid() && kernel <= d < ENTRIES && dir[d] == ZERO && f != 0 && f !in tables
      requires forall i :: 0 <= i < ENTRIES ==> dir[i].frame != f
      modifies this`tables, dir
      ensures Valid() && dir[..] == old(dir[..])[d := Word(f, true, true, true)]
      ensures tables.Keys == old(tables.Keys) + {f}
      ensures NoneChanged(old(dir[..]), old(tables), dir[..], tables)
    {
      hide UserTables, NoneChanged, AllSane;
      ghost var dir0 := dir[..];
      NewTableKeeps(dir0, tables, kernel, d, f);
      SaneNone(dir0, tables, dir0[d := Word(f, true, true, true)], tables[f := seq(ENTRIES, _ => ZERO)], kernel);
      tables := tables[f := seq(ENTRIES, _ => ZERO)];
      dir[d] := Word(f, true, true, true);
      assert dir[..] == dir0[d := Word(f, true, true, true)];
    }

    method SetEntry(ghost n: nat, d: nat, t: nat, e: Word)
      requires Valid() && n < LINEAR && d == n / ENTRIES && t == n % ENTRIES && dir[d].frame != 0
      requires kernel * ENTRIES <= n ==> Sane(e)
      modifies this`tables
      ensures Valid() && tables.Keys == old(tables.Keys)
      ensures OneChanged(dir[..], old(tables), dir[..], tables, n, e)
    {
      hide EntryAt, UserTables, OneChanged, AllSane;
      ghost var dir0 := dir[..];
      EntrySet(dir0, tables, kernel, n, e);
      var f := dir[d].frame;
      SaneOne(dir0, tables, dir0, tables[f := tables[f][t := e]], kernel, n, e);
      tables := tables[f := tables[f][t := e]];
      assert dir[..] == dir0;
    }

    // One round of pmap_markpages, at page n of the linear address space.
    method MarkOne(ghost n: nat, linear: nat, p: bool, w: bool, u: bool)
      requires Valid() && linear / PAGESIZE == n && linear < WORD && (p ==> w && u)
      modifies this`tables
      ensures Valid() && OneMarked(dir[..], old(tables), tables, n, p, w, u)
    {
      hide UserTables, OneMarked;
      var d, t := linear / 0x400000 % ENTRIES, linear / PAGESIZE % ENTRIES;
      ghost var dir0, tables0 := dir[..], tables;
      assert n < LINEAR && d == n / ENTRIES && t == n % ENTRIES;
      FrameZero(dir0, tables, kernel, d);
      if dir[d].frame != 0 {
        TableOf(dir0, tables, kernel, d);
        var e := Masked(tables[dir[d].frame][t], p, w, u);
        EntryIs(dir0, tables, n);
        if kernel * ENTRIES <= n { assert Sane(UserEntry(dir0, tables, kernel, n - kernel * ENTRIES)); }
        SetEntry(n, d, t, e);
        SetIsMark(dir0, tables0, tables, n, p, w, u);
      } else {
        ZeroIsMark(dir0, tables0, n, p, w, u);
      }
      assert dir[..] == dir0;
    }

    // pmap_markpages: the bits of the mask are cleared in every entry of the range. The end is clipped to userland, the
    // start is not: from a start beyond it everything is marked up to the end of the linear address space, from the
    // place in the kernel's part to which the address wraps around.
    method MarkPages(startAddr: nat, endAddr: nat, p: bool, w: bool, u: bool) returns (ok: bool)
      requires Valid() && startAddr < WORD && endAddr < WORD && (p ==> w && u)
      modifies this`tables
      ensures Valid() && ok == (startAddr < endAddr)
      ensures !ok ==> tables == old(tables)
      ensures ok ==>
                RangeMarked(dir[..], old(tables), tables, FirstLinear(kernel, startAddr),
                            EndLinear(kernel, startAddr, endAddr),
                                 p, w, u)
      ensures !ok || UserAddress(kernel, startAddr) ==> KernelKept()
      ensures w && KernelWhole(dir[..], old(tables), kernel) ==>
                (KernelWhole(dir[..], tables, kernel) <==> !ok || UserAddress(kernel, startAddr))
    {
      hide UserTables, OneMarked, RangeMarked, AllSane, KernelWhole, FirstLinear, EndLinear;
      ghost var dir0 := dir[..];
      KernelSame'(dir0, tables, kernel);
      if startAddr >= endAddr { return false; }
      var limit := WORD - 1 - kernel * 0x400000;
      var last := if endAddr >= limit then limit else endAddr;
      var first := startAddr / PAGESIZE * PAGESIZE;
      last := last / PAGESIZE * PAGESIZE;
      var pages := (last - first + WORD) % WORD / PAGESIZE + 1;
      ghost var lo, total := FirstLinear(kernel, startAddr), pages;
      PageCount(kernel, startAddr, endAddr, first, last);
      var linear := (first + kernel * 0x400000) % WORD;
      ghost var n := 0;
      NoneMarked(dir0, tables, lo, p, w, u);
      while pages > 0
        invariant Valid() && dir[..] == dir0 && n + pages == total && 0 <= pages
        invariant linear % PAGESIZE == 0 && linear < WORD
        invariant pages > 0 ==> linear / PAGESIZE == lo + n
        invariant RangeMarked(dir0, old(tables), tables, lo, lo + n, p, w, u)
      {
        ghost var tables1 := tables;
        MarkOne(lo + n, linear, p, w, u);
        MarkStep(dir0, old(tables), tables1, tables, lo, lo + n, p, w, u);
        NextLinear(linear, lo + n, pages);
        linear := (linear + PAGESIZE) % WORD;
        pages := pages - 1;
        n := n + 1;
      }
      KernelMarked(dir0, old(tables), tables, kernel, startAddr, endAddr, p, w, u);
      return true;
    }

    // pmap_mapped: a page is mapped when its entry is present.
    method Mapped(va: nat) returns (mapped: bool)
      requires Valid() && UserAddress(kernel, va)
      ensures mapped <==> va / PAGESIZE in Present()
    {
      hide UserTables;
      var d, t := Indices(va);
      ghost var n := va / PAGESIZE + kernel * ENTRIES;
      FrameZero(dir[..], tables, kernel, d);
      assert UserEntry(dir[..], tables, kernel, va / PAGESIZE) == EntryAt(dir[..], tables, n);
      assert Sane(UserEntry(dir[..], tables, kernel, va / PAGESIZE));
      if !dir[d].p && !dir[d].w && !dir[d].u {
        if dir[d] != ZERO { TableOf(dir[..], tables, kernel, d); }
        return false;
      }
      TableOf(dir[..], tables, kernel, d);
      EntryIs(dir[..], tables, n);
      var e := tables[dir[d].frame][t];
      return e.p || e.w || e.u;
    }

    // machdep_proc_freemaps, up to the directory itself: exactly the process' own page tables are freed.
    method FreeMaps() returns (freed: seq<nat>)
      requires Valid()
      modifies this`tables
      ensures forall f :: f in freed <==> exists i :: kernel <= i < ENTRIES && dir[i] != ZERO && dir[i].frame == f
      ensures forall i, j :: 0 <= i < j < |freed| ==> freed[i] != freed[j]
      ensures forall i :: 0 <= i < kernel ==> dir[i].frame !in freed
      ensures tables == old(tables) - (set f | f in freed)
    {
      freed := [];
      for i := kernel to ENTRIES
        invariant forall f :: f in freed <==> exists k :: kernel <= k < i && dir[k] != ZERO && dir[k].frame == f
        invariant forall k, j :: 0 <= k < j < |freed| ==> freed[k] != freed[j]
        invariant tables == old(tables) - (set f | f in freed)
      {
        FrameZero(dir[..], old(tables), kernel, i);
        var frame := dir[i].frame;
        if frame != 0 {
          assert forall k :: kernel <= k < i && dir[k] != ZERO ==> dir[k].frame != frame;
          assert frame !in freed;
          freed := freed + [frame];
          tables := tables - {frame};
        }
      }
    }

    // pmap_markpages_cow
    method MarkPagesCow(startAddr: nat, endAddr: nat) returns (ok: bool)
      requires Valid() && startAddr < WORD && endAddr < WORD
      modifies this`tables
      ensures Valid() && ok == (startAddr < endAddr)
      ensures forall vp: nat {:trigger Entry(vp)} :: vp < UserPages() ==>
                Entry(vp) == if ok && Touched(kernel, startAddr, endAddr, vp) then old(Entry(vp)).(w := false)
                             else old(Entry(vp))
      ensures Present()
              == if ok then Protected(old(Present()), FirstUser(kernel, startAddr),
                                      LastUser(kernel, startAddr, endAddr))
                           else old(Present())
      ensures !ok || UserAddress(kernel, startAddr) ==> KernelKept()
      ensures KernelWhole(dir[..], old(tables), kernel) ==>
                (KernelWhole(dir[..], tables, kernel) <==> !ok || UserAddress(kernel, startAddr))
    {
      hide RangeMarked, PresentIn, KernelWhole;
      ok := MarkPages(startAddr, endAddr, false, true, false);
      if ok {
        CowPresent(dir[..], old(tables), tables, kernel, startAddr, endAddr);
        MarkedEntries(dir[..], old(tables), tables, kernel, startAddr, endAddr, false, true, false);
      }
    }

    // pmap_unmappages
    method UnmapPages(startAddr: nat, endAddr: nat) returns (ok: bool)
      requires Valid() && startAddr < WORD && endAddr < WORD
      modifies this`tables
      ensures Valid() && ok == (startAddr < endAddr)
      ensures forall vp: nat {:trigger Entry(vp)} :: vp < UserPages() ==>
                Entry(vp) == if ok && Touched(kernel, startAddr, endAddr, vp)
                             then Word(old(Entry(vp)).frame, false, false, false) else old(Entry(vp))
      ensures Present()
              == if ok then Removed(old(Present()), FirstUser(kernel, startAddr), LastUser(kernel, startAddr, endAddr))
                           else old(Present())
      ensures !ok || UserAddress(kernel, startAddr) ==> KernelKept()
      ensures KernelWhole(dir[..], old(tables), kernel) ==>
                (KernelWhole(dir[..], tables, kernel) <==> !ok || UserAddress(kernel, startAddr))
    {
      hide RangeMarked, PresentIn, KernelWhole;
      ok := MarkPages(startAddr, endAddr, true, true, true);
      if ok {
        UnmapPresent(dir[..], old(tables), tables, kernel, startAddr, endAddr);
        MarkedEntries(dir[..], old(tables), tables, kernel, startAddr, endAddr, true, true, true);
      }
    }
  }

  ghost predicate OneMarked(dir: Table, tables: map<nat, Table>, tables': map<nat, Table>, n: nat, p: bool, w: bool,
                            u: bool)
    requires |dir| == ENTRIES
  {
    forall m: nat :: m < LINEAR ==>
      EntryAt(dir, tables', m) == if m == n then Masked(EntryAt(dir, tables, m), p, w, u) else EntryAt(dir, tables, m)
  }

  ghost predicate RangeMarked(dir: Table, tables: map<nat, Table>, tables': map<nat, Table>, lo: nat, hi: nat,
                              p: bool, w: bool, u: bool)
    requires |dir| == ENTRIES
  {
    forall m: nat :: m < LINEAR ==>
      EntryAt(dir, tables', m)
        == if lo <= m < hi then Masked(EntryAt(dir, tables, m), p, w, u) else EntryAt(dir, tables, m)
  }

  lemma FrameZero(dir: Table, tables: map<nat, Table>, kernel: nat, d: nat)
    requires |dir| == ENTRIES && kernel <= ENTRIES && d < ENTRIES && UserTables(dir, tables, kernel)
    ensures kernel <= d ==> (dir[d].frame != 0 <==> dir[d] != ZERO)
    ensures dir[d].frame == 0 <==> dir[d].frame !in tables
  {}

  lemma EntryIs(dir: Table, tables: map<nat, Table>, n: nat)
    requires |dir| == ENTRIES && n < LINEAR && dir[n / ENTRIES].frame in tables
    requires |tables[dir[n / ENTRIES].frame]| == ENTRIES
    ensures n / ENTRIES < ENTRIES && EntryAt(dir, tables, n) == tables[dir[n / ENTRIES].frame][n % ENTRIES]
  {}

  lemma SetIsMark(dir: Table, tables: map<nat, Table>, tables': map<nat, Table>, n: nat, p: bool, w: bool, u: bool)
    requires |dir| == ENTRIES && n < LINEAR
    requires OneChanged(dir, tables, dir, tables', n, Masked(EntryAt(dir, tables, n), p, w, u))
    ensures OneMarked(dir, tables, tables', n, p, w, u)
  {
    hide EntryAt;
  }

  lemma ZeroIsMark(dir: Table, tables: map<nat, Table>, n: nat, p: bool, w: bool, u: bool)
    requires |dir| == ENTRIES && n < LINEAR && dir[n / ENTRIES].frame !in tables
    ensures OneMarked(dir, tables, tables, n, p, w, u)
  {
    assert n / ENTRIES % ENTRIES == n / ENTRIES;
  }

  lemma NoneMarked(dir: Table, tables: map<nat, Table>, lo: nat, p: bool, w: bool, u: bool)
    requires |dir| == ENTRIES
    ensures RangeMarked(dir, tables, tables, lo, lo, p, w, u)
  {}

  lemma MarkStep(dir: Table, tables: map<nat, Table>, tables1: map<nat, Table>, tables2: map<nat, Table>, lo: nat,
                 hi: nat, p: bool, w: bool, u: bool)
    requires |dir| == ENTRIES && lo <= hi
    requires RangeMarked(dir, tables, tables1, lo, hi, p, w, u) && OneMarked(dir, tables1, tables2, hi, p, w, u)
    ensures RangeMarked(dir, tables, tables2, lo, hi + 1, p, w, u)
  {
    hide EntryAt;
  }

  // What marking a range does to the kernel's pages.
  lemma KernelMarked(dir: Table, tables: map<nat, Table>, tables': map<nat, Table>, kernel: nat, startAddr: nat,
                     endAddr: nat, p: bool, w: bool, u: bool)
    requires |dir| == ENTRIES && 0 < kernel < ENTRIES && startAddr < WORD
    requires RangeMarked(dir, tables, tables', FirstLinear(kernel, startAddr), EndLinear(kernel, startAddr, endAddr), p,
                         w, u)
    ensures UserAddress(kernel, startAddr) ==> SameBelow(dir, tables, dir, tables', kernel)
    ensures w && KernelWhole(dir, tables, kernel) ==>
              (KernelWhole(dir, tables', kernel) <==> UserAddress(kernel, startAddr))
  {
    hide EntryAt;
    var lo := FirstLinear(kernel, startAddr);
    if !UserAddress(kernel, startAddr) {
      assert lo < kernel * ENTRIES < LINEAR;
      assert EntryAt(dir, tables', lo) == Masked(EntryAt(dir, tables, lo), p, w, u);
    } else {
      assert lo >= kernel * ENTRIES;
    }
  }

  lemma NextLinear(linear: nat, n: nat, pages: nat)
    requires linear % PAGESIZE == 0 && linear < WORD && linear / PAGESIZE == n
    ensures (linear + PAGESIZE) % WORD % PAGESIZE == 0
    ensures n + 1 < LINEAR ==> (linear + PAGESIZE) % WORD / PAGESIZE == n + 1
  {}

  lemma KernelSame'(dir: Table, tables: map<nat, Table>, kernel: nat)
    requires |dir| == ENTRIES && kernel <= ENTRIES
    ensures SameBelow(dir, tables, dir, tables, kernel)
  {}

  lemma PageCount(kernel: nat, startAddr: nat, endAddr: nat, first: nat, last: nat)
    requires 0 < kernel < ENTRIES && startAddr < endAddr < WORD
    requires first == startAddr / PAGESIZE * PAGESIZE
    requires var limit := WORD - 1 - kernel * 0x400000;
      last == (if endAddr >= limit then limit else endAddr) / PAGESIZE * PAGESIZE
    ensures (last - first + WORD) % WORD / PAGESIZE + 1
            == EndLinear(kernel, startAddr, endAddr) - FirstLinear(kernel, startAddr)
    ensures (first + kernel * 0x400000) % WORD / PAGESIZE == FirstLinear(kernel, startAddr)
    ensures (first + kernel * 0x400000) % WORD % PAGESIZE == 0
    ensures EndLinear(kernel, startAddr, endAddr) <= LINEAR
  {
    var s, l := startAddr / PAGESIZE, last / PAGESIZE;
    ClippedPage(kernel, startAddr, endAddr, last);
    assert last - first + WORD == (l - s + LINEAR) * PAGESIZE;
    assert first + kernel * 0x400000 == (s + kernel * ENTRIES) * PAGESIZE;
    Pages(l - s + LINEAR);
    Pages(s + kernel * ENTRIES);
    LinearCount(kernel, startAddr, endAddr);
  }

  // The page of the clipped end.
  lemma ClippedPage(kernel: nat, startAddr: nat, endAddr: nat, last: nat)
    requires 0 < kernel < ENTRIES && startAddr < endAddr < WORD
    requires var limit := WORD - 1 - kernel * 0x400000;
      last == (if endAddr >= limit then limit else endAddr) / PAGESIZE * PAGESIZE
    ensures last % PAGESIZE == 0 && last / PAGESIZE == LastUser(kernel, startAddr, endAddr) < PagesAbove(kernel)
    ensures startAddr / PAGESIZE < LINEAR
  {
    var limit := WORD - 1 - kernel * 0x400000;
    assert limit / PAGESIZE == PagesAbove(kernel) - 1;
    assert last / PAGESIZE
           == if endAddr / PAGESIZE >= PagesAbove(kernel) then PagesAbove(kernel) - 1 else endAddr / PAGESIZE;
  }

  lemma LinearCount(kernel: nat, startAddr: nat, endAddr: nat)
    requires 0 < kernel < ENTRIES && startAddr < endAddr < WORD
    requires LastUser(kernel, startAddr, endAddr) < PagesAbove(kernel)
    ensures (LastUser(kernel, startAddr, endAddr) - startAddr / PAGESIZE + LINEAR) % LINEAR + 1 ==
            EndLinear(kernel, startAddr, endAddr) - FirstLinear(kernel, startAddr)
    ensures EndLinear(kernel, startAddr, endAddr) <= LINEAR
  {
    var s := startAddr / PAGESIZE;
    assert s < LINEAR;
    if s >= PagesAbove(kernel) { assert FirstLinear(kernel, startAddr) == s + kernel * ENTRIES - LINEAR; }
    else { assert FirstLinear(kernel, startAddr) == s + kernel * ENTRIES; }
  }

  lemma Pages(n: nat)
    requires n < 2 * LINEAR
    ensures n * PAGESIZE % WORD == n % LINEAR * PAGESIZE && n * PAGESIZE % WORD / PAGESIZE == n % LINEAR
    ensures n * PAGESIZE % WORD % PAGESIZE == 0
  {
    if n < LINEAR {
      assert n * PAGESIZE < WORD;
    } else {
      assert n * PAGESIZE == (n - LINEAR) * PAGESIZE + WORD && (n - LINEAR) * PAGESIZE < WORD;
    }
  }

  // What marking does to the present entries.
  function Protected(pt: map<nat, Pte>, first: nat, last: nat): map<nat, Pte> {
    map vp | vp in pt :: if first <= vp <= last then pt[vp].(writable := false) else pt[vp]
  }

  function Removed(pt: map<nat, Pte>, first: nat, last: nat): map<nat, Pte> {
    map vp | vp in pt && !(first <= vp <= last) :: pt[vp]
  }

  // The user pages of the range that is marked.
  lemma MarkedUser(kernel: nat, startAddr: nat, endAddr: nat, v: nat)
    requires 0 < kernel < ENTRIES && startAddr < WORD && v < PagesAbove(kernel)
    ensures v + kernel * ENTRIES < LINEAR
    ensures FirstLinear(kernel, startAddr) <= v + kernel * ENTRIES < EndLinear(kernel, startAddr, endAddr) <==>
            FirstUser(kernel, startAddr) <= v <= LastUser(kernel, startAddr, endAddr)
  {
    hide LastUser;
    var s := startAddr / PAGESIZE;
    if s >= PagesAbove(kernel) {
      assert FirstLinear(kernel, startAddr) == s + kernel * ENTRIES - LINEAR;
      LastBeyond(kernel, startAddr, endAddr);
    } else {
      assert FirstLinear(kernel, startAddr) == s + kernel * ENTRIES;
    }
  }

  lemma LastBeyond(kernel: nat, startAddr: nat, endAddr: nat)
    requires 0 < kernel < ENTRIES && !UserAddress(kernel, startAddr)
    ensures LastUser(kernel, startAddr, endAddr) == PagesAbove(kernel) - 1
  {}

  // A user page has an address of the range, or the range starts beyond userland.
  predicate Touched(kernel: nat, startAddr: nat, endAddr: nat, vp: nat) {
    startAddr + kernel * 0x400000 < WORD ==> startAddr < (vp + 1) * PAGESIZE && vp * PAGESIZE <= endAddr
  }

  // The bits of such a page are cleared, and nothing else.
  lemma MarkedEntries(dir: Table, tables: map<nat, Table>, tables': map<nat, Table>, kernel: nat, startAddr: nat,
                      endAddr: nat, p: bool, w: bool, u: bool)
    requires |dir| == ENTRIES && 0 < kernel < ENTRIES && startAddr < WORD
    requires RangeMarked(dir, tables, tables', FirstLinear(kernel, startAddr), EndLinear(kernel, startAddr, endAddr), p,
                         w, u)
    ensures forall vp: nat {:trigger UserEntry(dir, tables', kernel, vp)} :: vp < LINEAR - kernel * ENTRIES ==>
              var e := UserEntry(dir, tables, kernel, vp);
              UserEntry(dir, tables', kernel, vp) ==
              if Touched(kernel, startAddr, endAddr, vp)
              then Word(e.frame, if p then false else e.p, if w then false else e.w, if u then false else e.u) else e
  {
    hide EntryAt, FirstLinear, EndLinear, FirstUser, LastUser;
    forall vp: nat | vp < LINEAR - kernel * ENTRIES
      ensures var e := UserEntry(dir, tables, kernel, vp);
        UserEntry(dir, tables', kernel, vp) ==
        if Touched(kernel, startAddr, endAddr, vp)
        then Word(e.frame, if p then false else e.p, if w then false else e.w, if u then false else e.u) else e
    {
      MarkedUser(kernel, startAddr, endAddr, vp);
      InClippedRange(kernel, startAddr, endAddr, vp);
    }
  }

  lemma InClippedRange(kernel: nat, startAddr: nat, endAddr: nat, vp: nat)
    requires 0 < kernel < ENTRIES && startAddr < WORD && vp < LINEAR - kernel * ENTRIES
    ensures FirstUser(kernel, startAddr) <= vp <= LastUser(kernel, startAddr, endAddr) <==>
            Touched(kernel, startAddr, endAddr, vp)
  {
    assert UserAddress(kernel, startAddr) <==> startAddr + kernel * 0x400000 < WORD;
  }

  lemma CowPresent(dir: Table, tables: map<nat, Table>, tables': map<nat, Table>, kernel: nat, startAddr: nat,
                   endAddr: nat)
    requires |dir| == ENTRIES && 0 < kernel < ENTRIES && startAddr < WORD
    requires RangeMarked(dir, tables, tables', FirstLinear(kernel, startAddr), EndLinear(kernel, startAddr, endAddr),
                         false, true, false)
    ensures PresentIn(dir, tables', kernel) ==
            Protected(PresentIn(dir, tables, kernel), FirstUser(kernel, startAddr),
                      LastUser(kernel, startAddr, endAddr))
  {
    hide EntryAt, FirstLinear, EndLinear, FirstUser, LastUser;
    forall v: nat | v < PagesAbove(kernel)
      ensures UserEntry(dir, tables', kernel, v) ==
              if FirstUser(kernel, startAddr) <= v <= LastUser(kernel, startAddr, endAddr)
              then Masked(UserEntry(dir, tables, kernel, v), false, true, false)
              else UserEntry(dir, tables, kernel, v)
    {
      MarkedUser(kernel, startAddr, endAddr, v);
    }
  }

  lemma UnmapPresent(dir: Table, tables: map<nat, Table>, tables': map<nat, Table>, kernel: nat, startAddr: nat,
                     endAddr: nat)
    requires |dir| == ENTRIES && 0 < kernel < ENTRIES && startAddr < WORD
    requires RangeMarked(dir, tables, tables', FirstLinear(kernel, startAddr), EndLinear(kernel, startAddr, endAddr),
                         true, true, true)
    ensures PresentIn(dir, tables', kernel) ==
            Removed(PresentIn(dir, tables, kernel), FirstUser(kernel, startAddr), LastUser(kernel, startAddr, endAddr))
  {
    hide EntryAt, FirstLinear, EndLinear, FirstUser, LastUser;
    forall v: nat | v < PagesAbove(kernel)
      ensures UserEntry(dir, tables', kernel, v) ==
              if FirstUser(kernel, startAddr) <= v <= LastUser(kernel, startAddr, endAddr)
              then Masked(UserEntry(dir, tables, kernel, v), true, true, true)
              else UserEntry(dir, tables, kernel, v)
    {
      MarkedUser(kernel, startAddr, endAddr, v);
    }
  }

  // ---------------------------------------------------------------- the page tables of all processes

  // The map of entries that the rest of the kernel takes the page directories for: what each of them translates.
  function Flat(present: map<nat, map<nat, Pte>>): PageTables {
    map pid, vp | pid in present && vp in present[pid] :: PageKey(pid, vp) := present[pid][vp]
  }

  // One process' directory changes.
  function With(present: map<nat, map<nat, Pte>>, pid: nat, pt: map<nat, Pte>): map<nat, map<nat, Pte>> {
    present[pid := pt]
  }

  // pmap_unmappages and pmap_markpages_cow on that map, for addresses with startAddr < endAddr.
  function UnmapRange(pt: PageTables, pid: nat, kernel: nat, startAddr: nat, endAddr: nat): PageTables {
    Unmapped(pt, pid, FirstUser(kernel, startAddr), LastUser(kernel, startAddr, endAddr))
  }

  function ProtectRange(pt: PageTables, pid: nat, kernel: nat, startAddr: nat, endAddr: nat): PageTables {
    WriteProtected(pt, pid, FirstUser(kernel, startAddr), LastUser(kernel, startAddr, endAddr))
  }

  // What MapPage, MarkPagesCow and UnmapPages do to one process' directory, they do to the map of all entries.
  lemma FlatMap(present: map<nat, map<nat, Pte>>, pid: nat, vp: nat, e: Pte)
    requires pid in present
    ensures Flat(With(present, pid, present[pid][vp := e])) == Flat(present)[PageKey(pid, vp) := e]
  {
    var present' := With(present, pid, present[pid][vp := e]);
    forall k: PageKey ensures k in Flat(present') <==> k in Flat(present)[PageKey(pid, vp) := e] {
      FlatAt(present, k);
      FlatAt(present', k);
    }
  }

  lemma FlatAt(present: map<nat, map<nat, Pte>>, k: PageKey)
    ensures k in Flat(present) <==> k.pid in present && k.vp in present[k.pid]
    ensures k in Flat(present) ==> Flat(present)[k] == present[k.pid][k.vp]
  {
    assert k == PageKey(k.pid, k.vp);
  }

  lemma FlatProtect(present: map<nat, map<nat, Pte>>, pid: nat, kernel: nat, startAddr: nat, endAddr: nat)
    requires pid in present
    ensures var first, last := FirstUser(kernel, startAddr), LastUser(kernel, startAddr, endAddr);
      Flat(With(present, pid, Protected(present[pid], first, last)))
        == ProtectRange(Flat(present), pid, kernel, startAddr, endAddr)
  {
    hide FirstUser, LastUser, Flat;
    var first, last := FirstUser(kernel, startAddr), LastUser(kernel, startAddr, endAddr);
    var present' := With(present, pid, Protected(present[pid], first, last));
    forall k: PageKey
      ensures k in Flat(present') <==> k in Flat(present)
      ensures k in Flat(present') ==>
                Flat(present')[k] == ProtectRange(Flat(present), pid, kernel, startAddr, endAddr)[k]
    {
      FlatAt(present, k);
      FlatAt(present', k);
    }
  }

  lemma FlatUnmap(present: map<nat, map<nat, Pte>>, pid: nat, kernel: nat, startAddr: nat, endAddr: nat)
    requires pid in present
    ensures var first, last := FirstUser(kernel, startAddr), LastUser(kernel, startAddr, endAddr);
      Flat(With(present, pid, Removed(present[pid], first, last)))
        == UnmapRange(Flat(present), pid, kernel, startAddr, endAddr)
  {
    hide FirstUser, LastUser;
    var first, last := FirstUser(kernel, startAddr), LastUser(kernel, startAddr, endAddr);
    var present' := With(present, pid, Removed(present[pid], first, last));
    forall k: PageKey ensures k in Flat(present') <==> k in UnmapRange(Flat(present), pid, kernel, startAddr, endAddr) {
      FlatAt(present, k);
      FlatAt(present', k);
    }
  }

  // With entries of userland only, that is the range of addresses, if it starts in userland, and everything if not.
  predicate InUserland(pt: PageTables, kernel: nat) {
    forall e :: e in pt ==> e.vp < PagesAbove(kernel)
  }

  lemma UnmapRangeIs(pt: PageTables, pid: nat, kernel: nat, startAddr: nat, endAddr: nat)
    requires InUserland(pt, kernel) && 0 < kernel < ENTRIES
    ensures UnmapRange(pt, pid, kernel, startAddr, endAddr) ==
            if UserAddress(kernel, startAddr) then Unmapped(pt, pid, startAddr / PAGESIZE, endAddr / PAGESIZE)
            else Unmapped(pt, pid, 0, PagesAbove(kernel))
  {}

  lemma ProtectRangeIs(pt: PageTables, pid: nat, kernel: nat, startAddr: nat, endAddr: nat)
    requires InUserland(pt, kernel) && 0 < kernel < ENTRIES
    ensures ProtectRange(pt, pid, kernel, startAddr, endAddr) ==
            if UserAddress(kernel, startAddr) then WriteProtected(pt, pid, startAddr / PAGESIZE, endAddr / PAGESIZE)
            else WriteProtected(pt, pid, 0, PagesAbove(kernel))
  {}

  // munmap(0xff000000, 4096) on a machine with 16 MB: all of the linear address space is unmapped, the kernel included.
  lemma UnmapsTheKernel(dir: Table, tables: map<nat, Table>, tables': map<nat, Table>, n: nat)
    requires |dir| == ENTRIES && n < LINEAR && KernelWhole(dir, tables, 4)
    requires RangeMarked(dir, tables, tables', FirstLinear(4, 0xff000000), EndLinear(4, 0xff000000, 0xff000fff), true,
                         true, true)
    ensures 0xff000000 / PAGESIZE == PagesAbove(4)
    ensures FirstLinear(4, 0xff000000) == 0 && EndLinear(4, 0xff000000, 0xff000fff) == LINEAR
    ensures var e := EntryAt(dir, tables', n); !e.p && !e.w && !e.u
    ensures !KernelWhole(dir, tables', 4)
  {
    hide EntryAt;
    assert EntryAt(dir, tables', 0) == Masked(EntryAt(dir, tables, 0), true, true, true);
    assert EntryAt(dir, tables', n) == Masked(EntryAt(dir, tables, n), true, true, true);
  }

  // Entries that are not present carry no other bit either.
  predicate Sane(e: Word) { !e.p ==> !e.w && !e.u }

  ghost predicate AllSane(dir: Table, tables: map<nat, Table>, kernel: nat)
    requires |dir| == ENTRIES
  {
    forall vp: nat :: vp < PagesAbove(kernel) ==> Sane(UserEntry(dir, tables, kernel, vp))
  }

  lemma SaneOne(dir: Table, tables: map<nat, Table>, dir': Table, tables': map<nat, Table>, kernel: nat, n: nat,
                e: Word)
    requires |dir| == ENTRIES && |dir'| == ENTRIES && kernel <= ENTRIES
    requires AllSane(dir, tables, kernel) && OneChanged(dir, tables, dir', tables', n, e)
    requires kernel * ENTRIES <= n ==> Sane(e)
    ensures AllSane(dir', tables', kernel)
  {
    hide EntryAt;
    forall v: nat | v < PagesAbove(kernel) ensures Sane(UserEntry(dir', tables', kernel, v)) {
      assert v + kernel * ENTRIES < LINEAR;
      assert Sane(UserEntry(dir, tables, kernel, v));
    }
  }

  lemma SaneNone(dir: Table, tables: map<nat, Table>, dir': Table, tables': map<nat, Table>, kernel: nat)
    requires |dir| == ENTRIES && |dir'| == ENTRIES && kernel <= ENTRIES
    requires AllSane(dir, tables, kernel) && NoneChanged(dir, tables, dir', tables')
    ensures AllSane(dir', tables', kernel)
  {
    hide EntryAt;
    forall v: nat | v < PagesAbove(kernel) ensures Sane(UserEntry(dir', tables', kernel, v)) {
      assert v + kernel * ENTRIES < LINEAR;
      assert Sane(UserEntry(dir, tables, kernel, v));
    }
  }

  lemma NothingChanged(dir: Table, tables: map<nat, Table>)
    requires |dir| == ENTRIES
    ensures NoneChanged(dir, tables, dir, tables)
  {}

  ghost predicate SameBelow(dir: Table, tables: map<nat, Table>, dir': Table, tables': map<nat, Table>, kernel: nat)
    requires |dir| == ENTRIES && |dir'| == ENTRIES
  {
    forall n: nat :: n < kernel * ENTRIES ==> EntryAt(dir', tables', n) == EntryAt(dir, tables, n)
  }

  lemma KernelSame(dir: Table, tables: map<nat, Table>, dir': Table, tables': map<nat, Table>, kernel: nat)
    requires |dir| == ENTRIES && |dir'| == ENTRIES && kernel <= ENTRIES && NoneChanged(dir, tables, dir', tables')
    ensures SameBelow(dir, tables, dir', tables', kernel)
  {
    hide EntryAt;
  }

  lemma SameEntries(dir: Table, tables: map<nat, Table>, dir': Table, tables': map<nat, Table>, kernel: nat)
    requires |dir| == ENTRIES && |dir'| == ENTRIES && kernel <= ENTRIES && NoneChanged(dir, tables, dir', tables')
    ensures forall v: nat {:trigger UserEntry(dir', tables', kernel, v)} :: v < LINEAR - kernel * ENTRIES ==>
              UserEntry(dir', tables', kernel, v) == UserEntry(dir, tables, kernel, v)
  {
    hide EntryAt;
  }

  lemma EntriesBut(dir: Table, tables: map<nat, Table>, dir': Table, tables': map<nat, Table>, kernel: nat, vp: nat,
                   e: Word)
    requires |dir| == ENTRIES && |dir'| == ENTRIES && kernel <= ENTRIES && vp < LINEAR - kernel * ENTRIES
    requires OneChanged(dir, tables, dir', tables', vp + kernel * ENTRIES, e)
    ensures UserEntry(dir', tables', kernel, vp) == e
    ensures forall v: nat {:trigger UserEntry(dir', tables', kernel, v)} :: v < LINEAR - kernel * ENTRIES && v != vp ==>
              UserEntry(dir', tables', kernel, v) == UserEntry(dir, tables, kernel, v)
  {
    hide EntryAt;
  }

  lemma OpenTable(dir: Table, tables: map<nat, Table>, kernel: nat, d: nat)
    requires |dir| == ENTRIES && kernel <= d < ENTRIES && UserTables(dir, tables, kernel) && dir[d].frame != 0
    ensures dir[d].p && dir[d].w && dir[d].u
  {}

  lemma OneAbove(dir: Table, tables: map<nat, Table>, dir': Table, tables': map<nat, Table>, kernel: nat, vp: nat,
                 e: Word)
    requires |dir| == ENTRIES && |dir'| == ENTRIES && kernel <= ENTRIES
    requires OneChanged(dir, tables, dir', tables', vp + kernel * ENTRIES, e)
    ensures SameBelow(dir, tables, dir', tables', kernel)
  {
    hide EntryAt;
  }

  lemma TableOf(dir: Table, tables: map<nat, Table>, kernel: nat, d: nat)
    requires |dir| == ENTRIES && d < ENTRIES && kernel <= ENTRIES && UserTables(dir, tables, kernel)
             && dir[d].frame != 0
    ensures dir[d].frame in tables && |tables[dir[d].frame]| == ENTRIES && (kernel <= d ==> dir[d].p)
  {}

  lemma EmptyDirectory(dir: Table, tables: map<nat, Table>, kernel: nat)
    requires |dir| == ENTRIES && kernel <= ENTRIES && KernelTables(dir, tables, kernel)
    requires forall i :: kernel <= i < ENTRIES ==> dir[i] == ZERO
    ensures UserTables(dir, tables, kernel) && AllSane(dir, tables, kernel) && PresentIn(dir, tables, kernel) == map[]
  {
    forall v: nat | v < PagesAbove(kernel) ensures UserEntry(dir, tables, kernel, v) == ZERO {
      EmptyEntry(dir, tables, kernel, v);
    }
  }

  lemma EmptyEntry(dir: Table, tables: map<nat, Table>, kernel: nat, vp: nat)
    requires |dir| == ENTRIES && kernel <= ENTRIES && 0 !in tables && vp + kernel * ENTRIES < LINEAR
    requires forall i :: kernel <= i < ENTRIES ==> dir[i] == ZERO
    ensures EntryAt(dir, tables, vp + kernel * ENTRIES) == ZERO
  {
    var n := vp + kernel * ENTRIES;
    assert kernel <= n / ENTRIES < ENTRIES;
  }
}
