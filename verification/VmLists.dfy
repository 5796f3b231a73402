/** The processes' lists of vm_regions, in byte addresses, and the regions they stand for. */
module VmLists {
  import opened Basics
  import opened VmObjects
  import opened VmModel

  const WORD := 0x1_0000_0000

  // Addresses are those of the first and the last byte.
  datatype VmRegion = VmRegion(startAddr: nat, endAddr: nat, readable: bool, writable: bool, cow: bool,
                               source: ObjId, srcOffset: nat)

  type Lists = map<nat, seq<VmRegion>>

  predicate Aligned(r: VmRegion) {
    && r.startAddr % PAGESIZE == 0 && (r.endAddr + 1) % PAGESIZE == 0 && r.srcOffset % PAGESIZE == 0
    && r.startAddr <= r.endAddr < WORD && r.endAddr - r.startAddr + r.srcOffset < WORD
  }

  function RegionOf(r: VmRegion): Region {
    Region(r.startAddr / PAGESIZE, r.endAddr / PAGESIZE, r.readable, r.writable, r.cow, r.source,
           r.srcOffset / PAGESIZE)
  }

  function KeyOf(pid: nat, r: VmRegion): RegKey { RegKey(pid, r.startAddr / PAGESIZE) }

  function ListOf(lists: Lists, pid: nat): seq<VmRegion> {
    if pid in lists then lists[pid] else []
  }

  predicate Listed(pid: nat, r: VmRegion, regions: Regions) {
    Aligned(r) && KeyOf(pid, r) in regions && regions[KeyOf(pid, r)] == RegionOf(r)
  }

  predicate InList(list: seq<VmRegion>, first: nat) {
    exists i :: 0 <= i < |list| && list[i].startAddr / PAGESIZE == first
  }

  // The list holds exactly the regions of the process, each once.
  ghost predicate ListOk(pid: nat, list: seq<VmRegion>, regions: Regions) {
    && (forall i :: 0 <= i < |list| ==> Listed(pid, list[i], regions))
    && (forall i, j :: 0 <= i < j < |list| ==> list[i].startAddr != list[j].startAddr)
    && (forall k {:trigger k in regions} :: k in regions && k.pid == pid ==> InList(list, k.first))
  }

  ghost predicate ListsOk(lists: Lists, regions: Regions) {
    forall pid: nat :: ListOk(pid, ListOf(lists, pid), regions)
  }

  // Addresses and pages agree.
  lemma PageOfAddress(r: VmRegion, va: nat)
    requires Aligned(r)
    ensures r.startAddr <= va <= r.endAddr <==> RegionOf(r).first <= va / PAGESIZE <= RegionOf(r).last
    ensures r.startAddr <= va <= r.endAddr ==>
              && va - r.startAddr + r.srcOffset < WORD
              && (va - r.startAddr + r.srcOffset) / PAGESIZE == PageNr(RegionOf(r), va / PAGESIZE)
  {
    var s, e, o := r.startAddr / PAGESIZE, (r.endAddr + 1) / PAGESIZE, r.srcOffset / PAGESIZE;
    assert r.startAddr == s * PAGESIZE && r.endAddr + 1 == e * PAGESIZE && r.srcOffset == o * PAGESIZE;
    assert r.endAddr / PAGESIZE == e - 1;
  }

  // The first region that covers an address is the region that covers its page.
  lemma CoverIsListed(pid: nat, list: seq<VmRegion>, regions: Regions, va: nat, i: nat)
    requires ListOk(pid, list, regions) && i < |list| && list[i].startAddr <= va <= list[i].endAddr
    ensures Covers(regions, KeyOf(pid, list[i]), PageKey(pid, va / PAGESIZE))
    ensures regions[KeyOf(pid, list[i])] == RegionOf(list[i]) && Aligned(list[i])
  {
    PageOfAddress(list[i], va);
    assert Listed(pid, list[i], regions);
  }

  lemma NoCover(pid: nat, list: seq<VmRegion>, regions: Regions, va: nat, k: RegKey)
    requires ListOk(pid, list, regions) && k.pid == pid
    requires forall i :: 0 <= i < |list| ==> !(list[i].startAddr <= va <= list[i].endAddr)
    ensures !Covers(regions, k, PageKey(pid, va / PAGESIZE))
  {
    if k in regions {
      assert InList(list, k.first);
      var i :| 0 <= i < |list| && list[i].startAddr / PAGESIZE == k.first;
      assert Listed(pid, list[i], regions);
      PageOfAddress(list[i], va);
    }
  }

  // ---------------------------------------------------------------- changes

  lemma OtherList(pid: nat, list: seq<VmRegion>, regions: Regions, regions': Regions)
    requires ListOk(pid, list, regions)
    requires forall k: RegKey {:trigger k in regions'} {:trigger k in regions} :: k.pid == pid ==>
               (k in regions' <==> k in regions)
    requires forall k :: k in regions && k in regions' && k.pid == pid ==> regions'[k] == regions[k]
    ensures ListOk(pid, list, regions')
  {
    forall i | 0 <= i < |list| ensures Listed(pid, list[i], regions') { assert Listed(pid, list[i], regions); }
  }

  lemma SameKeyIndex(pid: nat, list: seq<VmRegion>, regions: Regions, i: nat, j: nat)
    requires ListOk(pid, list, regions) && i < |list| && j < |list| && i != j
    ensures KeyOf(pid, list[i]) != KeyOf(pid, list[j])
  {
    assert Listed(pid, list[i], regions) && Listed(pid, list[j], regions);
  }

  // A region of the list is changed, at the same place.
  lemma ChangedRegion(pid: nat, list: seq<VmRegion>, regions: Regions, i: nat, r: VmRegion)
    requires ListOk(pid, list, regions) && i < |list| && Aligned(r) && r.startAddr == list[i].startAddr
    ensures ListOk(pid, list[i := r], regions[KeyOf(pid, r) := RegionOf(r)])
  {
    var list', regions' := list[i := r], regions[KeyOf(pid, r) := RegionOf(r)];
    assert Listed(pid, list[i], regions);
    forall j | 0 <= j < |list'| ensures Listed(pid, list'[j], regions') {
      if j != i {
        assert Listed(pid, list[j], regions);
        SameKeyIndex(pid, list, regions, i, j);
      }
    }
    forall k {:trigger k in regions'} | k in regions' && k.pid == pid ensures InList(list', k.first) {
      assert k in regions && InList(list, k.first);
      var j :| 0 <= j < |list| && list[j].startAddr / PAGESIZE == k.first;
      assert list'[j].startAddr / PAGESIZE == k.first;
    }
  }

  // A region is put first in the list.
  lemma AddedRegion(pid: nat, list: seq<VmRegion>, regions: Regions, r: VmRegion)
    requires ListOk(pid, list, regions) && Aligned(r) && KeyOf(pid, r) !in regions
    ensures ListOk(pid, [r] + list, regions[KeyOf(pid, r) := RegionOf(r)])
  {
    hide Aligned;
    var list', regions' := [r] + list, regions[KeyOf(pid, r) := RegionOf(r)];
    forall j | 0 <= j < |list'| ensures Listed(pid, list'[j], regions') {
      if j != 0 { assert Listed(pid, list[j - 1], regions); }
    }
    forall i, j | 0 <= i < j < |list'| ensures list'[i].startAddr != list'[j].startAddr {
      assert Listed(pid, list[j - 1], regions);
      assert i == 0 ==> KeyOf(pid, list'[j]) in regions;
    }
    forall k {:trigger k in regions'} | k in regions' && k.pid == pid ensures InList(list', k.first) {
      if k == KeyOf(pid, r) {
        assert list'[0] == r;
      } else {
        assert k in regions && InList(list, k.first);
        var j :| 0 <= j < |list| && list[j].startAddr / PAGESIZE == k.first;
        assert list'[j + 1].startAddr / PAGESIZE == k.first;
      }
    }
  }

  // A region is taken out of the list.
  lemma RemovedRegion(pid: nat, list: seq<VmRegion>, regions: Regions, i: nat)
    requires ListOk(pid, list, regions) && i < |list|
    ensures ListOk(pid, list[..i] + list[i + 1..], regions - {KeyOf(pid, list[i])})
  {
    hide InList, Aligned;
    var list', regions' := list[..i] + list[i + 1..], regions - {KeyOf(pid, list[i])};
    forall j | 0 <= j < |list'| ensures Listed(pid, list'[j], regions') {
      var j' := if j < i then j else j + 1;
      assert list'[j] == list[j'];
      assert Listed(pid, list[j'], regions);
      SameKeyIndex(pid, list, regions, i, j');
    }
    forall j1, j2 | 0 <= j1 < j2 < |list'| ensures list'[j1].startAddr != list'[j2].startAddr {
      assert list'[j1] == list[if j1 < i then j1 else j1 + 1];
      assert list'[j2] == list[if j2 < i then j2 else j2 + 1];
    }
    forall k: RegKey {:trigger k in regions'} | k in regions' && k.pid == pid ensures InList(list', k.first) {
      assert k in regions && InList(list, k.first);
      StillInList(list, i, k.first);
    }
  }

  lemma StillInList(list: seq<VmRegion>, i: nat, first: nat)
    requires InList(list, first) && i < |list| && list[i].startAddr / PAGESIZE != first
    ensures InList(list[..i] + list[i + 1..], first)
  {
    var j :| 0 <= j < |list| && list[j].startAddr / PAGESIZE == first;
    assert (list[..i] + list[i + 1..])[if j < i then j else j - 1] == list[j];
  }
}
