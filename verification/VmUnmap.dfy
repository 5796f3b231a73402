/** What munmap and fork do to page tables, and munmap to the list of regions and to what a process sees. */
module VmUnmap {
  import opened Basics
  import opened VmObjects
  import opened VmModel
  import opened VmInvariants
  import opened VmRefinement
  import opened VmThreads
  import opened VmLists
  import opened VmRuns
  import opened VmCut
  import opened VmTheorems
  import opened VmSteps
  import A = AddressSpace
  import P = Pmap

  // ---------------------------------------------------------------- page tables

  lemma UnmapGood(s: State, a: Memory, pid: nat, first: nat, last: nat)
    requires Good(s, a)
    ensures Good(s.(pt := Unmapped(s.pt, pid, first, last)), a)
  {
    hide RefsOk, RegionsOk, FilesOk, StoreOk, Refines, EntryOk, Covers;
  }

  predicate NoneMapped(pt: PageTables, pid: nat, first: nat, last: nat) {
    forall e :: e in pt && e.pid == pid ==> !(first <= e.vp <= last)
  }

  lemma FaultAddsEntry(s: State, k: RegKey, vp: nat, write: bool, f: Frame, t: ObjId)
    requires Ranked(s.store.links) && Covers(s.regions, k, PageKey(k.pid, vp)) && s.regions[k].source in s.store.links
    requires Fault(s, k, vp, write, f, t).Done?
    ensures Fault(s, k, vp, write, f, t).s.pt.Keys == s.pt.Keys + {PageKey(k.pid, vp)}
    ensures Fault(s, k, vp, write, f, t).s.vmobj == s.vmobj
  {
    hide Ranked, Find, Bottom, Initial, Contents, Pushed;
  }

  lemma MappedInUserland(s: State, e: PageKey, f: Frame, w: bool, kernel: nat)
    requires P.InUserland(s.pt, kernel) && e.vp < P.PagesAbove(kernel)
    ensures P.InUserland(MapEntry(s, e, f, w).pt, kernel)
  {}

  // A writable region that starts beyond userland: pmap_markpages_cow then goes over the kernel's pages and all of the
  // process'.
  predicate Beyond(r: VmRegion, kernel: nat) { r.writable && !P.UserAddress(kernel, r.startAddr) }

  // The page tables while a process forks, before and after such a region.
  function Shielded(pt: PageTables, pid: nat, kernel: nat, all: bool): PageTables {
    if all then WriteProtected(pt, pid, 0, P.PagesAbove(kernel)) else pt
  }

  lemma ShieldedRound(pt: PageTables, pid: nat, kernel: nat, r: VmRegion, all: bool)
    requires P.InUserland(pt, kernel) && 0 < kernel < P.ENTRIES && r.writable
    ensures P.ProtectRange(Shielded(pt, pid, kernel, all), pid, kernel, r.startAddr, r.endAddr)
         == Shielded(WriteProtected(pt, pid, RegionOf(r).first, RegionOf(r).last), pid, kernel,
                     all || Beyond(r, kernel))
  {
    hide P.ProtectRange;
    P.ProtectRangeIs(Shielded(pt, pid, kernel, all), pid, kernel, r.startAddr, r.endAddr);
  }

  lemma NotShielded(pt: PageTables, pid: nat, kernel: nat)
    ensures Shielded(pt, pid, kernel, false) == pt
  {}

  lemma SameKeysInUserland(pt: PageTables, pt': PageTables, kernel: nat)
    requires P.InUserland(pt, kernel) && pt'.Keys == pt.Keys
    ensures P.InUserland(pt', kernel)
  {
    forall e | e in pt' ensures e.vp < P.PagesAbove(kernel) { assert e in pt.Keys; }
  }

  lemma SameBeyond(r1: VmRegion, r2: VmRegion, kernel: nat)
    requires r1.startAddr == r2.startAddr && r1.writable == r2.writable
    ensures Beyond(r1, kernel) == Beyond(r2, kernel)
  {}

  // When all of the process' memory is copy-on-write, no entry needs its write bit.
  lemma ShieldedGood(s: State, a: Memory, pid: nat, kernel: nat, all: bool)
    requires Good(s, a) && forall k :: k in s.regions && k.pid == pid ==> !InPlace(s.regions[k])
    ensures Good(s.(pt := Shielded(s.pt, pid, kernel, all)), a)
    ensures Shielded(s.pt, pid, kernel, all).Keys == s.pt.Keys
  {
    hide RefsOk, RegionsOk, FilesOk, StoreOk, Refines, Find, Ranked;
  }

  lemma NothingThere(pt: PageTables, pid: nat, first: nat, last: nat, lo: nat, hi: nat)
    requires NoneMapped(pt, pid, first, last) && first <= lo && hi <= last
    ensures Unmapped(pt, pid, lo, hi) == pt
  {}

  lemma NoneOfRegion(pt: PageTables, pid: nat, r: VmRegion, s: nat, e: nat)
    requires Aligned(r) && A.OnPages(s, e) && s <= r.startAddr && r.endAddr <= e
    requires NoneMapped(pt, pid, s / PAGESIZE, e / PAGESIZE)
    ensures forall p :: p in pt && p.pid == pid ==> !(r.startAddr <= p.vp * PAGESIZE <= r.endAddr)
  {}

  // sys_munmap accepts an address to which the kernel's part of the linear address space begins anew, here with 16 MB
  // of it, and pmap_unmappages then takes the kernel's pages too.
  lemma MunmapOfKernel(dir: P.Table, tables: map<nat, P.Table>, tables': map<nat, P.Table>)
    requires |dir| == P.ENTRIES && P.KernelWhole(dir, tables, 4)
    requires var s, e := 0xff000000, (0xff000000 + A.RoundUp(4096) + VmLists.WORD - 1) % VmLists.WORD;
      P.RangeMarked(dir, tables, tables', P.FirstLinear(4, s), P.EndLinear(4, s, e), true, true, true)
    ensures !A.Refused(0xff000000, 4096) && 0xff000000 / PAGESIZE == P.PagesAbove(4)
    ensures forall n: nat :: n < P.LINEAR ==> !P.EntryAt(dir, tables', n).p
    ensures !P.KernelWhole(dir, tables', 4)
  {
    hide P.EntryAt, P.RangeMarked, P.KernelWhole;
    assert A.RoundUp(4096) == 4096;
    forall n: nat | n < P.LINEAR ensures !P.EntryAt(dir, tables', n).p { P.UnmapsTheKernel(dir, tables, tables', n); }
    P.UnmapsTheKernel(dir, tables, tables', 0);
  }

  // A direct mmap of such an address unmaps the range first. But one of two pages around the end of userland spares the
  // kernel, and so does unmapping the first of them again. What is left is a region beyond userland.
  lemma RegionBeyond(r: VmRegion)
    requires Aligned(r) && r.startAddr == 0xfefff000 && r.endAddr == 0xfefff000 + 8192 - 1 && r.writable
    ensures !A.Refused(0xfefff000, 8192) && !A.Refused(0xfefff000, 4096) && P.UserAddress(4, 0xfefff000)
    ensures
      var endAddr := (0xfefff000 + A.RoundUp(4096) + VmLists.WORD - 1) % VmLists.WORD;
      endAddr == 0xfeffffff && A.Cut(r, 0xfefff000, endAddr) == A.One(High(r, endAddr)) && Beyond(High(r, endAddr), 4)
  {
    assert A.RoundUp(4096) == 4096 && A.RoundUp(8192) == 8192;
  }

  // When the process then forks, nothing of the kernel's memory can be written any more.
  lemma ForkOfKernel(dir: P.Table, tables: map<nat, P.Table>, tables': map<nat, P.Table>, r: VmRegion)
    requires |dir| == P.ENTRIES && P.KernelWhole(dir, tables, 4) && Beyond(r, 4) && r.startAddr == 0xff000000
    requires P.RangeMarked(dir, tables, tables', P.FirstLinear(4, r.startAddr), P.EndLinear(4, r.startAddr, r.endAddr),
                           false, true, false)
    ensures forall n: nat :: n < P.LINEAR ==> !P.EntryAt(dir, tables', n).w
    ensures !P.KernelWhole(dir, tables', 4)
  {
    hide P.EntryAt;
    forall n: nat | n < P.LINEAR ensures !P.EntryAt(dir, tables', n).w {
      assert P.EntryAt(dir, tables', n) == P.Masked(P.EntryAt(dir, tables, n), false, true, false);
    }
    assert !P.EntryAt(dir, tables', 0).w;
  }

  // ---------------------------------------------------------------- addresses and pages

  lemma LowIs(r: VmRegion, s: nat, e: nat)
    requires Aligned(r) && A.OnPages(s, e) && r.startAddr < s <= r.endAddr
    ensures var low := r.(endAddr := s - 1);
      && Aligned(low) && RegionOf(r).first < s / PAGESIZE <= RegionOf(r).last
      && RegionOf(low) == LowPart(RegionOf(r), s / PAGESIZE)
  {
    assert s == s / PAGESIZE * PAGESIZE && r.startAddr == r.startAddr / PAGESIZE * PAGESIZE;
    assert (s - 1) / PAGESIZE == s / PAGESIZE - 1;
  }

  function High(r: VmRegion, e: nat): VmRegion
    requires r.startAddr <= e
  {
    r.(startAddr := e + 1, srcOffset := r.srcOffset + (e + 1 - r.startAddr))
  }

  lemma HighIs(r: VmRegion, s: nat, e: nat)
    requires Aligned(r) && A.OnPages(s, e) && r.startAddr <= e < r.endAddr
    ensures
      && Aligned(High(r, e)) && RegionOf(r).first <= e / PAGESIZE < RegionOf(r).last
      && RegionOf(High(r, e)) == HighPart(RegionOf(r), e / PAGESIZE)
      && RegionOf(High(r, e)).first == e / PAGESIZE + 1
  {
    A.HighPiece(r, s, e);
    var n, f, o, l := (e + 1) / PAGESIZE, r.startAddr / PAGESIZE, r.srcOffset / PAGESIZE, (r.endAddr + 1) / PAGESIZE;
    assert e + 1 == n * PAGESIZE && r.startAddr == f * PAGESIZE && r.srcOffset == o * PAGESIZE;
    assert r.endAddr + 1 == l * PAGESIZE;
    PageBefore(n, e);
    PageBefore(l, r.endAddr);
    assert r.srcOffset + (e + 1 - r.startAddr) == (o + n - f) * PAGESIZE;
  }

  lemma PageBefore(n: nat, e: nat)
    requires e + 1 == n * PAGESIZE
    ensures e / PAGESIZE == n - 1
  {}

  lemma RangeInPages(r: VmRegion, s: nat, e: nat)
    requires Aligned(r) && A.OnPages(s, e)
    ensures s <= r.startAddr ==> s / PAGESIZE <= RegionOf(r).first
    ensures r.endAddr <= e ==> RegionOf(r).last <= e / PAGESIZE
    ensures s / PAGESIZE <= e / PAGESIZE && RegionOf(r).first <= RegionOf(r).last
    ensures Off(r, s, e) ==> e / PAGESIZE < RegionOf(r).first || RegionOf(r).last < s / PAGESIZE
  {
    PageBefore((e + 1) / PAGESIZE, e);
    PageBefore((r.endAddr + 1) / PAGESIZE, r.endAddr);
  }

  // ---------------------------------------------------------------- lists

  // A region of the list gets another start, at the same place of the list.
  lemma MovedRegion(pid: nat, list: seq<VmRegion>, regions: Regions, i: nat, r: VmRegion)
    requires ListOk(pid, list, regions) && i < |list| && Aligned(r) && KeyOf(pid, r) !in regions
    ensures ListOk(pid, list[i := r], (regions - {KeyOf(pid, list[i])})[KeyOf(pid, r) := RegionOf(r)])
  {
    hide Aligned;
    var list', k0 := list[i := r], KeyOf(pid, list[i]);
    var regions' := (regions - {k0})[KeyOf(pid, r) := RegionOf(r)];
    forall j | 0 <= j < |list'| ensures Listed(pid, list'[j], regions') {
      if j != i {
        assert Listed(pid, list[j], regions);
        SameKeyIndex(pid, list, regions, i, j);
      }
    }
    forall j1, j2 | 0 <= j1 < j2 < |list'| ensures list'[j1].startAddr != list'[j2].startAddr {
      assert Listed(pid, list[j1], regions) && Listed(pid, list[j2], regions);
    }
    forall k {:trigger k in regions'} | k in regions' && k.pid == pid ensures InList(list', k.first) {
      if k == KeyOf(pid, r) {
        assert list'[i] == r;
      } else {
        assert k in regions && InList(list, k.first);
        var j :| 0 <= j < |list| && list[j].startAddr / PAGESIZE == k.first;
        assert j != i && list'[j] == list[j];
      }
    }
  }

  lemma ListsMoved(lists: Lists, regions: Regions, pid: nat, i: nat, r: VmRegion)
    requires ListsOk(lists, regions) && i < |ListOf(lists, pid)| && Aligned(r) && KeyOf(pid, r) !in regions
    ensures var list := ListOf(lists, pid);
      ListsOk(lists[pid := list[i := r]], (regions - {KeyOf(pid, list[i])})[KeyOf(pid, r) := RegionOf(r)])
  {
    hide ListOk, Aligned;
    var list := ListOf(lists, pid);
    var lists' := lists[pid := list[i := r]];
    var regions' := (regions - {KeyOf(pid, list[i])})[KeyOf(pid, r) := RegionOf(r)];
    forall q: nat ensures ListOk(q, ListOf(lists', q), regions') {
      assert ListOk(q, ListOf(lists, q), regions);
      if q == pid { MovedRegion(pid, list, regions, i, r); }
      else { OtherList(q, ListOf(lists, q), regions, regions'); }
    }
  }

  lemma ListDisjoint(lists: Lists, s: State, a: Memory, pid: nat)
    requires ListsOk(lists, s.regions) && Good(s, a)
    ensures A.Disjoint(ListOf(lists, pid)) && A.AllAligned(ListOf(lists, pid))
  {
    hide Used, Refines, RefsOk, PtOk, FilesOk, StoreOk, RegionOk, Aligned;
    var list := ListOf(lists, pid);
    assert ListOk(pid, list, s.regions);
    forall i | 0 <= i < |list| ensures Aligned(list[i]) { assert Listed(pid, list[i], s.regions); }
    forall i, j | 0 <= i < j < |list| ensures A.Separate(list[i], list[j]) {
      assert Listed(pid, list[i], s.regions) && Listed(pid, list[j], s.regions);
      SameKeyIndex(pid, list, s.regions, i, j);
      assert Apart(RegionOf(list[i]), RegionOf(list[j]));
      ApartAddresses(list[i], list[j]);
    }
  }

  lemma ApartAddresses(r1: VmRegion, r2: VmRegion)
    requires Aligned(r1) && Aligned(r2) && Apart(RegionOf(r1), RegionOf(r2))
    ensures A.Separate(r1, r2)
  {}

  // ---------------------------------------------------------------- what is left

  predicate Off(r: VmRegion, s: nat, e: nat) { r.endAddr < s || e < r.startAddr }

  predicate Splits(r: VmRegion, s: nat, e: nat) { r.startAddr < s && e < r.endAddr }

  // The object of the region is not a shadow, which has fields for two referers only.
  predicate MaySplit(objects: Objects, r: VmRegion) {
    r.source in objects && objects[r.source].kind != Shadow
  }

  predicate AllMaySplit(objects: Objects, list: seq<VmRegion>, s: nat, e: nat) {
    forall i :: 0 <= i < |list| ==> (Splits(list[i], s, e) ==> MaySplit(objects, list[i]))
  }

  // If a region has a part in the range, no other one contains the range.
  lemma OthersWhole(list: seq<VmRegion>, i: nat, j: nat, s: nat, e: nat)
    requires A.Disjoint(list) && A.AllAligned(list) && i < |list| && j < |list| && i != j && s <= e
    requires !Off(list[i], s, e)
    ensures !Splits(list[j], s, e)
  {
    assert Aligned(list[i]);
    assert i < j ==> A.Separate(list[i], list[j]);
    assert j < i ==> A.Separate(list[j], list[i]);
  }

  lemma CutOff(r: VmRegion, s: nat, e: nat)
    requires Aligned(r) && A.OnPages(s, e)
    ensures
      match A.Cut(r, s, e)
      case Nothing => r.startAddr >= s && r.endAddr <= e
      case One(p) => Off(p, s, e)
      case Two(low, high) => Off(low, s, e) && Off(high, s, e)
  {
    A.EndAligned(r, s, e);
  }

  lemma CutListOff(done: seq<VmRegion>, r: VmRegion, s: nat, e: nat)
    requires Aligned(r) && A.OnPages(s, e) && forall j :: 0 <= j < |done| ==> Off(done[j], s, e)
    ensures s <= e && var list := A.CutList(done, A.Cut(r, s, e)); forall j :: 0 <= j < |list| ==> Off(list[j], s, e)
  {
    CutOff(r, s, e);
    hide A.Cut, Off, Aligned;
  }

  // Some cells in the range are gone, and no other cell has changed.
  ghost predicate Thinned(a0: Memory, a: Memory, pid: nat, first: nat, last: nat) {
    && (forall e :: e in a ==> e in a0 && a[e] == a0[e])
    && (forall e :: e in a0 && !(e.pid == pid && first <= e.vp <= last) ==> e in a)
  }

  lemma ThinnedMore(a0: Memory, a: Memory, pid: nat, first: nat, last: nat, lo: nat, hi: nat)
    requires Thinned(a0, a, pid, first, last) && first <= lo && hi <= last
    ensures Thinned(a0, WithoutRange(a, pid, lo, hi), pid, first, last)
  {}

  lemma ThinnedNot(a: Memory, pid: nat, first: nat, last: nat)
    ensures Thinned(a, a, pid, first, last)
  {}

  lemma ThinnedTwice(a0: Memory, a1: Memory, a2: Memory, pid: nat, first: nat, last: nat)
    requires Thinned(a0, a1, pid, first, last) && Thinned(a1, a2, pid, first, last)
    ensures Thinned(a0, a2, pid, first, last)
  {}

  lemma ThinnedAll(a0: Memory, a: Memory, pid: nat, first: nat, last: nat)
    requires Thinned(a0, a, pid, first, last) && forall e :: e in a && e.pid == pid ==> !(first <= e.vp <= last)
    ensures a == WithoutRange(a0, pid, first, last)
  {}

  // If all regions are outside the range, the process sees nothing there.
  lemma NoneLeft(lists: Lists, s: State, a: Memory, pid: nat, start: nat, end: nat)
    requires ListsOk(lists, s.regions) && Good(s, a) && A.OnPages(start, end)
    requires forall i :: 0 <= i < |ListOf(lists, pid)| ==> Off(ListOf(lists, pid)[i], start, end)
    ensures forall e :: e in a && e.pid == pid ==> !(start / PAGESIZE <= e.vp <= end / PAGESIZE)
  {
    hide Good, Off, Aligned;
    var list := ListOf(lists, pid);
    assert ListOk(pid, list, s.regions);
    forall e | e in a && e.pid == pid ensures !(start / PAGESIZE <= e.vp <= end / PAGESIZE) {
      if start / PAGESIZE <= e.vp <= end / PAGESIZE {
        forall k: RegKey | k.pid == pid ensures !Covers(s.regions, k, e) {
          if k in s.regions {
            assert InList(list, k.first);
            var i :| 0 <= i < |list| && list[i].startAddr / PAGESIZE == k.first;
            assert Listed(pid, list[i], s.regions);
            RangeInPages(list[i], start, end);
          }
        }
        NoCell(s, a, e);
      }
    }
  }

  // ---------------------------------------------------------------- the model's state

  lemma CutGood(s: State, a: Memory, k: RegKey, lo: nat, hi: nat)
    requires Good(s, a) && CanCut(s.regions, k, lo, hi)
    requires k in s.regions && s.regions[k].source in s.store.links && s.refs.Keys == s.store.links.Keys
    requires InTwo(s.regions[k], lo, hi) ==> s.store.links[s.regions[k].source].kind != Shadow
    ensures Good(CutRegion(s, k, lo, hi), WithoutRange(a, k.pid, lo, hi))
    ensures Clear(s.regions, k, hi)
  {
    hide Inv, Used, Refines, CutRegion, WithoutRange, CanCut, CutRegions, Clear, InPlaceBut;
    CutKeeps(s, a, k, lo, hi);
    GoodClear(s, a, k, lo, hi);
  }

  lemma GoodClear(s: State, a: Memory, k: RegKey, lo: nat, hi: nat)
    requires Good(s, a) && CanCut(s.regions, k, lo, hi)
    ensures Clear(s.regions, k, hi)
  {
    hide Used, Refines, RefsOk, PtOk, FilesOk, StoreOk, RegionsOk;
    IsClear(s.store.links, s.regions, k, lo, hi);
  }
}
