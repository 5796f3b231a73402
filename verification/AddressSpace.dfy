/** The address space of one process as intervals: sys_munmap, vm_region_findfree and the vm_prot functions. */
module AddressSpace {
  import opened Basics
  import opened VmModel
  import opened VmObjects
  import opened VmLists

  const EINVAL := 22

  // ---------------------------------------------------------------- what a list of regions shows

  predicate Contains(r: VmRegion, x: nat) { r.startAddr <= x <= r.endAddr }

  // The byte of the object that is at an address, and what may be done with it.
  datatype Target = Target(source: ObjId, offset: nat, readable: bool, writable: bool, cow: bool)

  function TargetOf(r: VmRegion, x: nat): Target
    requires Contains(r, x)
  {
    Target(r.source, x - r.startAddr + r.srcOffset, r.readable, r.writable, r.cow)
  }

  predicate ShownBy(r: VmRegion, x: nat, b: Target) { Contains(r, x) && TargetOf(r, x) == b }

  predicate Shows(rs: seq<VmRegion>, x: nat, b: Target) {
    exists i :: 0 <= i < |rs| && ShownBy(rs[i], x, b)
  }

  predicate Separate(r1: VmRegion, r2: VmRegion) { r1.endAddr < r2.startAddr || r2.endAddr < r1.startAddr }

  predicate Disjoint(rs: seq<VmRegion>) {
    forall i, j :: 0 <= i < j < |rs| ==> Separate(rs[i], rs[j])
  }

  predicate AllAligned(rs: seq<VmRegion>) {
    forall i :: 0 <= i < |rs| ==> Aligned(rs[i])
  }

  lemma OneContains(rs: seq<VmRegion>, x: nat, i: nat, j: nat)
    requires Disjoint(rs) && i < |rs| && j < |rs| && Contains(rs[i], x) && Contains(rs[j], x)
    ensures i == j
  {}

  // Every address shows one byte at most.
  lemma ShowsOne(rs: seq<VmRegion>, x: nat, b: Target, b': Target)
    requires Disjoint(rs) && Shows(rs, x, b) && Shows(rs, x, b')
    ensures b == b'
  {
    var i :| 0 <= i < |rs| && ShownBy(rs[i], x, b);
    var j :| 0 <= j < |rs| && ShownBy(rs[j], x, b');
    OneContains(rs, x, i, j);
  }

  lemma ShowsAppend(rs: seq<VmRegion>, rs': seq<VmRegion>, x: nat, b: Target)
    ensures Shows(rs + rs', x, b) <==> Shows(rs, x, b) || Shows(rs', x, b)
  {
    if Shows(rs, x, b) {
      var i :| 0 <= i < |rs| && ShownBy(rs[i], x, b);
      assert (rs + rs')[i] == rs[i];
    }
    if Shows(rs', x, b) {
      var i :| 0 <= i < |rs'| && ShownBy(rs'[i], x, b);
      assert (rs + rs')[|rs| + i] == rs'[i];
    }
    if Shows(rs + rs', x, b) {
      var i :| 0 <= i < |rs + rs'| && ShownBy((rs + rs')[i], x, b);
      assert if i < |rs| then (rs + rs')[i] == rs[i] else (rs + rs')[i] == rs'[i - |rs|];
    }
  }

  lemma ShowsOneRegion(r: VmRegion, x: nat, b: Target)
    ensures Shows([r], x, b) <==> ShownBy(r, x, b)
  {
    if ShownBy(r, x, b) { assert ShownBy([r][0], x, b); }
  }

  // ---------------------------------------------------------------- rounding

  // round_up_to_page, in 32 bits
  function RoundUp(len: nat): nat { (len + PAGESIZE - 1) / PAGESIZE * PAGESIZE % WORD }

  lemma RoundUpFits(len: nat)
    requires len < WORD
    ensures RoundUp(len) % PAGESIZE == 0 && RoundUp(len) < WORD
    ensures 0 < len <= WORD - PAGESIZE ==> len <= RoundUp(len) < len + PAGESIZE
    ensures len == 0 || len > WORD - PAGESIZE ==> RoundUp(len) == 0
  {
    var n := (len + PAGESIZE - 1) / PAGESIZE;
    assert n <= WORD / PAGESIZE;
    if n == WORD / PAGESIZE { assert n * PAGESIZE == WORD; }
  }

  // ---------------------------------------------------------------- cutting

  predicate Outside(x: nat, s: nat, e: nat) { x < s || x > e }

  // What is left of a region: nothing, one piece, or two. The second piece goes to the front of the list.
  datatype Rest = Nothing | One(r: VmRegion) | Two(low: VmRegion, high: VmRegion)

  function Cut(r: VmRegion, s: nat, e: nat): Rest
    requires s <= e
  {
    if r.startAddr >= s && r.endAddr <= e then Nothing
    else if r.startAddr < s && r.endAddr > s && r.endAddr <= e then One(r.(endAddr := s - 1))
    else if r.startAddr >= s && r.startAddr < e && r.endAddr > e then
      One(r.(startAddr := e + 1, srcOffset := r.srcOffset + (e + 1 - r.startAddr)))
    else if r.startAddr < s && r.endAddr > e then
      Two(r.(endAddr := s - 1), r.(startAddr := e + 1, srcOffset := r.srcOffset + (e + 1 - r.startAddr)))
    else One(r)
  }

  // The list when the region between `before` and `after` has been cut.
  function CutList(before: seq<VmRegion>, rest: Rest): seq<VmRegion> {
    match rest
    case Nothing => before
    case One(r) => before + [r]
    case Two(low, high) => [high] + before + [low]
  }

  predicate OnPages(s: nat, e: nat) { s % PAGESIZE == 0 && (e + 1) % PAGESIZE == 0 && s <= e < WORD }

  // A cut region shows what it did, outside the range; its pieces lie inside it.
  lemma CutShows(r: VmRegion, s: nat, e: nat, x: nat, b: Target)
    requires Aligned(r) && OnPages(s, e)
    ensures
      match Cut(r, s, e)
      case Nothing => !(ShownBy(r, x, b) && Outside(x, s, e))
      case One(p) => ShownBy(p, x, b) <==> ShownBy(r, x, b) && Outside(x, s, e)
      case Two(low, high) => ShownBy(low, x, b) || ShownBy(high, x, b) <==> ShownBy(r, x, b) && Outside(x, s, e)
  {
    EndAligned(r, s, e);
  }

  lemma EndAligned(r: VmRegion, s: nat, e: nat)
    requires Aligned(r) && OnPages(s, e)
    ensures r.endAddr >= s ==> r.endAddr > s
    ensures r.startAddr <= e ==> r.startAddr < e
    ensures s <= e
  {}

  predicate Within(p: VmRegion, r: VmRegion) { r.startAddr <= p.startAddr && p.endAddr <= r.endAddr }

  lemma Multiples(a: nat, b: nat, c: nat)
    requires a % PAGESIZE == 0 && b % PAGESIZE == 0 && c % PAGESIZE == 0 && c <= b
    ensures (a + (b - c)) % PAGESIZE == 0
  {
    assert a + (b - c) == (a / PAGESIZE + b / PAGESIZE - c / PAGESIZE) * PAGESIZE;
  }

  lemma HighPiece(r: VmRegion, s: nat, e: nat)
    requires Aligned(r) && OnPages(s, e) && r.startAddr <= e < r.endAddr
    ensures Aligned(r.(startAddr := e + 1, srcOffset := r.srcOffset + (e + 1 - r.startAddr)))
  {
    Multiples(r.srcOffset, e + 1, r.startAddr);
  }

  lemma LowPiece(r: VmRegion, s: nat, e: nat)
    requires Aligned(r) && OnPages(s, e) && r.startAddr < s <= r.endAddr
    ensures Aligned(r.(endAddr := s - 1))
  {}

  predicate PiecesOf(rest: Rest, r: VmRegion) {
    match rest
    case Nothing => true
    case One(p) => Aligned(p) && Within(p, r)
    case Two(low, high) => Aligned(low) && Aligned(high) && Within(low, r) && Within(high, r) && Separate(low, high)
  }

  lemma PiecesOfOne(p: VmRegion, r: VmRegion)
    requires Aligned(p) && Within(p, r)
    ensures PiecesOf(One(p), r)
  {}

  lemma PiecesOfTwo(low: VmRegion, high: VmRegion, r: VmRegion)
    requires Aligned(low) && Aligned(high) && Within(low, r) && Within(high, r) && Separate(low, high)
    ensures PiecesOf(Two(low, high), r)
  {}

  lemma CutPieces(r: VmRegion, s: nat, e: nat)
    requires Aligned(r) && OnPages(s, e)
    ensures s <= e && PiecesOf(Cut(r, s, e), r)
  {
    hide Aligned, OnPages, PiecesOf;
    EndAligned(r, s, e);
    if r.startAddr >= s && r.endAddr <= e {
      assert PiecesOf(Nothing, r) by { NoPieces(r); }
    } else if r.startAddr < s && r.endAddr > s && r.endAddr <= e {
      LowPiece(r, s, e);
      PiecesOfOne(r.(endAddr := s - 1), r);
    } else if r.startAddr >= s && r.startAddr < e && r.endAddr > e {
      HighPiece(r, s, e);
      PiecesOfOne(r.(startAddr := e + 1, srcOffset := r.srcOffset + (e + 1 - r.startAddr)), r);
    } else if r.startAddr < s && r.endAddr > e {
      LowPiece(r, s, e);
      HighPiece(r, s, e);
      PiecesOfTwo(r.(endAddr := s - 1),
                  r.(startAddr := e + 1, srcOffset := r.srcOffset + (e + 1 - r.startAddr)), r);
    } else {
      PiecesOfOne(r, r);
    }
  }

  lemma NoPieces(r: VmRegion)
    ensures PiecesOf(Nothing, r)
  {}

  lemma CutListShows(before: seq<VmRegion>, r: VmRegion, s: nat, e: nat, x: nat, b: Target)
    requires Aligned(r) && OnPages(s, e)
    ensures s <= e
    ensures Shows(CutList(before, Cut(r, s, e)), x, b) <==>
            Shows(before, x, b) || (ShownBy(r, x, b) && Outside(x, s, e))
  {
    hide Cut, ShownBy, Shows;
    CutShows(r, s, e, x, b);
    match Cut(r, s, e)
    case Nothing =>
    case One(p) =>
      ShowsAppend(before, [p], x, b);
      ShowsOneRegion(p, x, b);
    case Two(low, high) =>
      ShowsAppend([high] + before, [low], x, b);
      ShowsAppend([high], before, x, b);
      ShowsOneRegion(low, x, b);
      ShowsOneRegion(high, x, b);
  }

  lemma CutListKeeps(before: seq<VmRegion>, r: VmRegion, after: seq<VmRegion>, s: nat, e: nat)
    requires Aligned(r) && OnPages(s, e) && Disjoint(before + [r] + after) && AllAligned(before + [r] + after)
    ensures s <= e
    ensures var rs := CutList(before, Cut(r, s, e)) + after; Disjoint(rs) && AllAligned(rs)
  {
    hide Cut, Aligned, Disjoint, Within;
    CutPieces(r, s, e);
    PartsDisjoint(before, r, after);
    match Cut(r, s, e)
    case Nothing =>
      assert before + [] == before;
      JoinDisjoint(before, [], after);
    case One(p) =>
      JoinDisjoint(before, [p], after);
    case Two(low, high) =>
      JoinDisjoint(before, [low], after);
      assert [high] + before + [low] + after == [high] + (before + [low] + after);
      hide Separate;
      assert ApartFromAll(high, before + [low] + after) by { Apart3(low, high); }
      FrontDisjoint(high, before + [low] + after);
  }

  lemma Apart3(low: VmRegion, high: VmRegion)
    requires Separate(low, high)
    ensures Separate(high, low)
  {}

  predicate ApartFromAll(p: VmRegion, rs: seq<VmRegion>) {
    forall i :: 0 <= i < |rs| ==> Separate(p, rs[i])
  }

  lemma PartsDisjoint(before: seq<VmRegion>, r: VmRegion, after: seq<VmRegion>)
    requires Disjoint(before + [r] + after) && AllAligned(before + [r] + after)
    ensures Disjoint(before) && Disjoint(after) && AllAligned(before) && AllAligned(after)
    ensures forall i :: 0 <= i < |before| ==> ApartFromAll(before[i], after)
    ensures forall p :: Within(p, r) ==> ApartFromAll(p, before) && ApartFromAll(p, after)
  {
    var rs0 := before + [r] + after;
    assert forall i :: 0 <= i < |before| ==> rs0[i] == before[i];
    assert rs0[|before|] == r;
    assert forall i :: 0 <= i < |after| ==> rs0[|before| + 1 + i] == after[i];
  }

  lemma JoinDisjoint(before: seq<VmRegion>, mid: seq<VmRegion>, after: seq<VmRegion>)
    requires Disjoint(before) && Disjoint(after) && |mid| <= 1
    requires AllAligned(before) && AllAligned(after) && AllAligned(mid)
    requires forall i :: 0 <= i < |before| ==> ApartFromAll(before[i], after)
    requires forall p :: p in mid ==> ApartFromAll(p, before) && ApartFromAll(p, after)
    ensures Disjoint(before + mid + after) && AllAligned(before + mid + after)
  {
    hide Aligned;
    var rs := before + mid + after;
    forall i, j | 0 <= i < j < |rs| ensures Separate(rs[i], rs[j]) {
      if i < |before| && j >= |before| + |mid| { assert ApartFromAll(before[i], after); }
      if i == |before| && |mid| == 1 { assert mid[0] in mid; }
      if j == |before| && |mid| == 1 { assert mid[0] in mid; }
    }
  }

  lemma FrontDisjoint(p: VmRegion, rs: seq<VmRegion>)
    requires Disjoint(rs) && AllAligned(rs) && Aligned(p) && ApartFromAll(p, rs)
    ensures Disjoint([p] + rs) && AllAligned([p] + rs)
  {}

  // ---------------------------------------------------------------- access checks

  // Some region has the address, and allows the access.
  predicate Accessible(rs: seq<VmRegion>, x: nat, readable: bool, writable: bool) {
    exists i :: 0 <= i < |rs| && rs[i].startAddr <= x <= rs[i].endAddr
                && (readable ==> rs[i].readable) && (writable ==> rs[i].writable)
  }

  predicate AllAccessible(rs: seq<VmRegion>, lo: nat, hi: nat, readable: bool, writable: bool) {
    forall x: nat :: lo <= x <= hi ==> Accessible(rs, x, readable, writable)
  }

  // The region of the address ends with the address space, so that what follows it is address 0.
  predicate AtTop(rs: seq<VmRegion>, x: nat) {
    exists i :: 0 <= i < |rs| && Contains(rs[i], x) && rs[i].endAddr == WORD - 1
  }

  // ---------------------------------------------------------------- free places

  predicate Free(rs: seq<VmRegion>, a: nat, len: nat) {
    forall i :: 0 <= i < |rs| ==> rs[i].endAddr < a || rs[i].startAddr >= a + len
  }

  predicate SomeAbove(rs: seq<VmRegion>, a: nat) {
    exists i :: 0 <= i < |rs| && rs[i].startAddr >= a
  }

  // Just below some region.
  predicate Candidate(rs: seq<VmRegion>, a: nat, len: nat) {
    Free(rs, a, len) && exists i :: 0 <= i < |rs| && rs[i].startAddr == a + len
  }

  // The lowest region that starts at a or above.
  lemma {:induction false} LowestAbove(rs: seq<VmRegion>, a: nat) returns (k: nat)
    requires SomeAbove(rs, a)
    ensures k < |rs| && rs[k].startAddr >= a
    ensures forall i :: 0 <= i < |rs| && rs[i].startAddr >= a ==> rs[k].startAddr <= rs[i].startAddr
  {
    var n := |rs| - 1;
    if SomeAbove(rs[..n], a) {
      k := LowestAbove(rs[..n], a);
      assert forall i :: 0 <= i < n ==> rs[..n][i] == rs[i];
      if rs[n].startAddr >= a && rs[n].startAddr < rs[k].startAddr { k := n; }
    } else {
      k := n;
      assert forall i :: 0 <= i < n ==> rs[..n][i].startAddr < a;
      assert forall i :: 0 <= i < n ==> rs[i] == rs[..n][i];
    }
  }

  // A free place below some region can be moved up until it touches one.
  lemma MovesUp(rs: seq<VmRegion>, a: nat, len: nat) returns (b: nat)
    requires Free(rs, a, len) && SomeAbove(rs, a + len)
    requires forall i :: 0 <= i < |rs| ==> rs[i].startAddr <= rs[i].endAddr
    ensures b >= a && Candidate(rs, b, len)
  {
    var k := LowestAbove(rs, a + len);
    b := rs[k].startAddr - len;
  }

  class Space {
    var regions: seq<VmRegion>

    ghost predicate Valid()
      reads this
    {
      Disjoint(regions) && AllAligned(regions)
    }

    constructor ()
      ensures Valid() && regions == []
    {
      regions := [];
    }

    // vm_region_detach, as far as the list goes
    method Detach(startAddr: nat) returns (ok: bool, ghost i: nat)
      modifies this
      ensures ok ==> && i < |old(regions)| && old(regions)[i].startAddr == startAddr
                     && (forall j :: 0 <= j < i ==> old(regions)[j].startAddr != startAddr)
                     && regions == old(regions)[..i] + old(regions)[i + 1..]
      ensures !ok ==> regions == old(regions) && forall j :: 0 <= j < |regions| ==> regions[j].startAddr != startAddr
    {
      i := 0;
      for k := 0 to |regions|
        invariant regions == old(regions) && forall j :: 0 <= j < k ==> regions[j].startAddr != startAddr
      {
        if regions[k].startAddr == startAddr {
          regions := regions[..k] + regions[k + 1..];
          return true, k;
        }
      }
      return false, 0;
    }

    // The region at place i is cut, as the loop of sys_munmap does; next is the place of the one after it.
    method CutRegion(i: nat, startAddr: nat, endAddr: nat) returns (next: nat)
      requires Valid() && i < |regions| && OnPages(startAddr, endAddr)
      modifies this
      ensures Valid()
      ensures var cut := CutList(old(regions)[..i], Cut(old(regions)[i], startAddr, endAddr));
        regions == cut + old(regions)[i + 1..] && next == |cut|
    {
      ghost var before, after := regions[..i], regions[i + 1..];
      var region := regions[i];
      assert regions == before + [region] + after;
      CutListKeeps(before, region, after, startAddr, endAddr);
      if region.startAddr >= startAddr && region.endAddr <= endAddr {
        UniqueStart(regions, i);
        var ok;
        ghost var k;
        ok, k := Detach(region.startAddr);
        return i;
      } else if region.startAddr < startAddr && region.endAddr > startAddr && region.endAddr <= endAddr {
        regions := regions[i := region.(endAddr := startAddr - 1)];
        assert regions == before + [regions[i]] + after;
      } else if region.startAddr >= startAddr && region.startAddr < endAddr && region.endAddr > endAddr {
        regions := regions[i := region.(startAddr := endAddr + 1,
                                        srcOffset := region.srcOffset + (endAddr + 1 - region.startAddr))];
        assert regions == before + [regions[i]] + after;
      } else if region.startAddr < startAddr && region.endAddr > endAddr {
        var oldregionend := region.endAddr;
        regions := regions[i := region.(endAddr := startAddr - 1)];
        var high := VmRegion(endAddr + 1, oldregionend, region.readable, region.writable, region.cow, region.source,
                             region.srcOffset + (endAddr + 1 - region.startAddr));
        regions := [high] + regions;   // vm_region_attach
        assert regions == [high] + before + [region.(endAddr := startAddr - 1)] + after;
        return i + 2;
      }
      assert regions == before + [regions[i]] + after;
      return i + 1;
    }

    lemma UniqueStart(rs: seq<VmRegion>, i: nat)
      requires Disjoint(rs) && AllAligned(rs) && i < |rs|
      ensures forall j :: 0 <= j < |rs| && rs[j].startAddr == rs[i].startAddr ==> j == i
    {
      forall j | 0 <= j < |rs| && rs[j].startAddr == rs[i].startAddr ensures j == i {
        OneContains(rs, rs[i].startAddr, i, j);
      }
    }

    // sys_munmap: addresses in the range show nothing any more, all others what they did.
    method Munmap(addr: nat, len: nat) returns (errno: nat)
      requires Valid() && addr < WORD && len < WORD
      modifies this
      ensures Valid()
      ensures errno == (if Refused(addr, len) then EINVAL else 0)
      ensures errno == if addr % 4096 != 0 || (addr > 0 && (len == 0 || addr + len > WORD)) then 22 else 0
      ensures errno != 0 ==> regions == old(regions)
      ensures errno == 0 ==>
                var endAddr := (addr + RoundUp(len) + WORD - 1) % WORD;
                forall x: nat, b :: Shows(regions, x, b) <==> Shows(old(regions), x, b) && Outside(x, addr, endAddr)
    {
      RefusedIs(addr, len);
      if addr % PAGESIZE != 0 { return EINVAL; }
      var rounded := RoundUp(len);
      var startAddr := addr;
      var endAddr := (startAddr + rounded + WORD - 1) % WORD;
      if endAddr < startAddr { return EINVAL; }
      EndOnPage(addr, len);
      ghost var before := old(regions);
      var i := 0;
      ghost var n := 0;
      hide Cut, Aligned, Shows;
      NothingCut(before, startAddr, endAddr);
      while i < |regions|
        invariant 0 <= n <= |before| && 0 <= i <= |regions| && regions[i..] == before[n..] && Valid()
        invariant CutUpTo(before[..n], regions[..i], startAddr, endAddr)
        decreases |before| - n
      {
        assert regions[i] == regions[i..][0] && regions[i + 1..] == regions[i..][1..];
        CutStep(before, n, regions[..i], startAddr, endAddr);
        i := CutRegion(i, startAddr, endAddr);
        n := n + 1;
      }
      assert before[..n] == before && regions[..i] == regions;
      return 0;
    }

    // Is there a region that collides with addr1..addr2?
    method Collides(addr1: nat, addr2: nat) returns (found: bool)
      requires Valid()
      ensures found <==> exists i :: 0 <= i < |regions| && !Misses(regions[i], addr1, addr2)
    {
      assert forall i :: 0 <= i < |regions| ==> regions[i].startAddr <= regions[i].endAddr;
      found := false;
      var i := 0;
      while i < |regions| && !found
        invariant 0 <= i <= |regions|
        invariant !found ==> forall j :: 0 <= j < i ==> Misses(regions[j], addr1, addr2)
        invariant found ==> exists j :: 0 <= j < |regions| && !Misses(regions[j], addr1, addr2)
        decreases |regions| - i, !found
      {
        var tmp := regions[i];
        if (tmp.startAddr < addr1 && tmp.endAddr < addr1) || (tmp.startAddr > addr2 && tmp.endAddr > addr2) {
          i := i + 1;
        } else {
          assert !Misses(regions[i], addr1, addr2);
          found := true;
        }
      }
    }

    // vm_region_findfree: the highest free place just below a region, or NULL. A length in the last page of the
    // address space rounds up to zero.
    method FindFree(len: nat) returns (addr: nat)
      requires Valid() && len < WORD
      ensures Best(regions, if len == 0 then PAGESIZE else RoundUp(len), addr)
    {
      RoundUpFits(len);
      var rounded := if len == 0 then PAGESIZE else RoundUp(len);
      hide RoundUp, Free, Misses;
      addr := 0;
      for i := 0 to |regions|
        invariant BelowSome(regions, addr, rounded)
        invariant BestUpTo(regions, i, rounded, addr)
      {
        hide BestUpTo;
        var better := 0;
        if regions[i].startAddr > rounded {
          var addr1 := regions[i].startAddr - rounded;
          var addr2 := regions[i].startAddr - 1;
          var found := Collides(addr1, addr2);
          MissIsFree(regions, addr1, addr2, rounded);
          if !found { better := addr1; }
        }
        BestStep(regions, i, rounded, addr, better);
        if better > addr { addr := better; }
      }
    }

    // The region that an address is in.
    method RegionAt(x: nat) returns (i: Option<nat>)
      ensures i.None? ==> forall j :: 0 <= j < |regions| ==> !Contains(regions[j], x)
      ensures i.Some? ==> i.value < |regions| && Contains(regions[i.value], x)
    {
      for k := 0 to |regions|
        invariant forall j :: 0 <= j < k ==> !Contains(regions[j], x)
      {
        if regions[k].startAddr <= x && regions[k].endAddr >= x { return Some(k); }
      }
      return None;
    }

    // vm_prot_accessible, with 32-bit addresses
    method CheckAccess(addr: nat, len: nat, readable: bool, writable: bool) returns (ok: bool)
      requires Valid() && addr < WORD && len < WORD
      requires CheckEnds(regions, (addr + len + WORD - 1) % WORD, readable, writable)
      ensures ok <==> Checked(regions, addr, (addr + len + WORD - 1) % WORD, readable, writable)
    {
      hide Accessible, AtTop;
      var start: nat, stop: nat := addr, (addr + len + WORD - 1) % WORD;
      ghost var wrapped := false;
      var done := false;
      while !done
        invariant Walked(regions, addr, stop, start, wrapped, readable, writable)
        invariant done ==> !Accessible(regions, start, readable, writable)
        decreases !done, !wrapped, WORD - start
      {
        done := true;
        var i := RegionAt(start);
        if i.Some? {
          var region := regions[i.value];
          OnlyRegion(regions, i.value, start, readable, writable);
          if (readable && !region.readable) || (writable && !region.writable) {
            WalkStops(regions, addr, stop, start, wrapped, readable, writable);
            return false;
          }
          WalkStep(regions, addr, stop, start, wrapped, i.value, readable, writable);
          wrapped := wrapped || region.endAddr == WORD - 1;
          start := (region.endAddr + 1) % WORD;
          if start > stop { return true; }
          done := false;
        } else {
          NoRegionNoAccess(regions, start, readable, writable);
        }
      }
      WalkStops(regions, addr, stop, start, wrapped, readable, writable);
      return false;
    }

    // vm_prot_maxmemrange: how far the access is allowed from addr on, around the end of the address space if need be.
    method MaxMemRange(addr: nat, readable: bool, writable: bool) returns (n: nat)
      requires Valid() && addr < WORD && !AllAccessible(regions, 0, WORD - 1, readable, writable)
      ensures n < WORD && Reaches(regions, addr, n, readable, writable)
    {
      hide Accessible, AllAccessible, RunOf;
      var start: nat, stop: nat := addr, (addr + WORD - 1) % WORD;
      ghost var k: nat := 0;
      var done := false;
      RunOfNothing(regions, addr, readable, writable);
      while !done
        invariant k < WORD && start == (addr + k) % WORD && stop == (addr + k + WORD - 1) % WORD
        invariant RunOf(regions, addr, k, readable, writable)
        invariant done ==> !Accessible(regions, start, readable, writable)
        decreases !done, WORD - k
      {
        done := true;
        var i := RegionAt(start);
        if i.Some? {
          var region := regions[i.value];
          OnlyRegion(regions, i.value, start, readable, writable);
          if (readable && !region.readable) || (writable && !region.writable) {
            Length(addr, k, stop);
            return (stop - addr + 1) % WORD;
          }
          RunGrows(regions, addr, k, region.endAddr, readable, writable);
          k := k + region.endAddr - start + 1;
          stop := region.endAddr;
          start := (stop + 1) % WORD;
          done := false;
        } else {
          NoRegionNoAccess(regions, start, readable, writable);
        }
      }
      Length(addr, k, stop);
      return (stop - addr + 1) % WORD;
    }
  }

  // The highest candidate below the first i regions, 0 if there is none.
  predicate BestUpTo(rs: seq<VmRegion>, i: nat, len: nat, addr: nat)
    requires i <= |rs|
  {
    && (addr != 0 ==> Free(rs, addr, len))
    && forall j :: 0 <= j < i && rs[j].startAddr > len && Free(rs, rs[j].startAddr - len, len) ==>
                     rs[j].startAddr - len <= addr
  }

  predicate BelowSome(rs: seq<VmRegion>, addr: nat, len: nat) {
    addr != 0 ==> exists j :: 0 <= j < |rs| && rs[j].startAddr == addr + len
  }

  // What the i-th region offers, 0 if nothing.
  lemma BestStep(rs: seq<VmRegion>, i: nat, len: nat, addr: nat, better: nat)
    requires i < |rs| && BestUpTo(rs, i, len, addr)
    requires better ==
             if rs[i].startAddr > len && Free(rs, rs[i].startAddr - len, len) then rs[i].startAddr - len else 0
    ensures BestUpTo(rs, i + 1, len, if better > addr then better else addr)
  {
    hide Free;
  }

  predicate Best(rs: seq<VmRegion>, len: nat, addr: nat) {
    && BelowSome(rs, addr, len)
    && BestUpTo(rs, |rs|, len, addr)
  }

  // What vm_region_findfree is for: the place is free and lies below a region, and no free place below any region
  // is higher. NULL means that there is no such place, but for address 0 itself.
  lemma BestIsHighest(rs: seq<VmRegion>, len: nat, addr: nat)
    requires Best(rs, len, addr) && len > 0 && forall i :: 0 <= i < |rs| ==> rs[i].startAddr <= rs[i].endAddr
    ensures addr != 0 ==> Free(rs, addr, len) && SomeAbove(rs, addr + len)
    ensures forall a: nat :: a >= 1 && Free(rs, a, len) && SomeAbove(rs, a + len) ==> a <= addr
  {
    forall a: nat | a >= 1 && Free(rs, a, len) && SomeAbove(rs, a + len) ensures a <= addr {
      var b := MovesUp(rs, a, len);
    }
  }

  // For a length that rounds up to zero, the address found is where the highest region starts, so it is not free.
  lemma FoundInUse(rs: seq<VmRegion>, len: nat, addr: nat)
    requires Disjoint(rs) && AllAligned(rs) && WORD - PAGESIZE < len < WORD && Best(rs, RoundUp(len), addr)
    ensures forall i :: 0 <= i < |rs| ==> rs[i].startAddr <= addr
    ensures addr != 0 ==> exists i :: 0 <= i < |rs| && rs[i].startAddr == addr
  {
    hide Aligned;
    assert RoundUp(len) == 0;
    forall i | 0 <= i < |rs| ensures rs[i].startAddr <= addr {
      assert Aligned(rs[i]);
      StartIsFree(rs, i);
    }
  }

  lemma StartIsFree(rs: seq<VmRegion>, i: nat)
    requires Disjoint(rs) && AllAligned(rs) && i < |rs|
    ensures Free(rs, rs[i].startAddr, 0)
  {
    forall j | 0 <= j < |rs| ensures rs[j].endAddr < rs[i].startAddr || rs[j].startAddr >= rs[i].startAddr {
      assert Aligned(rs[i]) && (j == i || Separate(rs[j], rs[i]));
    }
  }

  // ---------------------------------------------------------------- what the access check answers

  // What vm_prot_accessible answers: all of the range as it computes it, and the first byte in any case. From a region
  // that ends with the address space it goes on at address 0, which lies in the range still.
  predicate Checked(rs: seq<VmRegion>, addr: nat, stop: nat, readable: bool, writable: bool) {
    && Accessible(rs, addr, readable, writable)
    && if addr <= stop then AllAccessible(rs, addr, stop, readable, writable) && !AtTop(rs, stop)
       else AtTop(rs, addr) ==> AllAccessible(rs, 0, stop, readable, writable) && !AtTop(rs, stop)
  }

  // When it answers at all.
  predicate CheckEnds(rs: seq<VmRegion>, stop: nat, readable: bool, writable: bool) {
    !AllAccessible(rs, 0, WORD - 1, readable, writable) || !AtTop(rs, stop)
  }

  // One round of its loop that leads to another one.
  predicate GoesOn(r: VmRegion, x: nat, stop: nat, readable: bool, writable: bool) {
    Contains(r, x) && (readable ==> r.readable) && (writable ==> r.writable) && (r.endAddr + 1) % WORD <= stop
  }

  // Otherwise no round is the last one, wherever it starts.
  lemma EndlessOtherwise(rs: seq<VmRegion>, stop: nat, readable: bool, writable: bool, x: nat)
    requires Disjoint(rs) && AllAligned(rs) && stop < WORD && x < WORD && !CheckEnds(rs, stop, readable, writable)
    ensures exists i :: 0 <= i < |rs| && GoesOn(rs[i], x, stop, readable, writable)
  {
    hide Accessible, AllAligned, Aligned;
    var t :| 0 <= t < |rs| && Contains(rs[t], stop) && rs[t].endAddr == WORD - 1;
    assert Accessible(rs, x, readable, writable);
    var i := RegionThatAllows(rs, x, readable, writable);
    if i != t {
      assert Separate(rs[i], rs[t]);
      assert rs[i].endAddr < stop by { EndsInSpace(rs, i); }
    }
    assert GoesOn(rs[i], x, stop, readable, writable);
  }

  lemma RegionThatAllows(rs: seq<VmRegion>, x: nat, readable: bool, writable: bool) returns (i: nat)
    requires Accessible(rs, x, readable, writable)
    ensures i < |rs| && Contains(rs[i], x) && (readable ==> rs[i].readable) && (writable ==> rs[i].writable)
  {
    i :| 0 <= i < |rs| && rs[i].startAddr <= x <= rs[i].endAddr
      && (readable ==> rs[i].readable) && (writable ==> rs[i].writable);
  }

  lemma EndsInSpace(rs: seq<VmRegion>, i: nat)
    requires AllAligned(rs) && i < |rs|
    ensures rs[i].startAddr <= rs[i].endAddr < WORD
  {
    assert Aligned(rs[i]);
  }

  // Memory that does not begin at address 0 leaves the loop a way out.
  lemma ZeroEndsIt(rs: seq<VmRegion>, stop: nat, readable: bool, writable: bool)
    requires forall i :: 0 <= i < |rs| ==> !Contains(rs[i], 0)
    ensures CheckEnds(rs, stop, readable, writable)
  {
    assert !Accessible(rs, 0, readable, writable);
  }

  // Where a range neither is empty nor runs past the end of the address space, the answer is right, but for a range
  // that may be accessed whose last byte is in a region that ends with the address space.
  lemma AccessIsExact(rs: seq<VmRegion>, addr: nat, len: nat, readable: bool, writable: bool)
    requires 0 < len < WORD && addr + len <= WORD
    ensures
      var right := AllAccessible(rs, addr, addr + len - 1, readable, writable);
      (Checked(rs, addr, (addr + len + WORD - 1) % WORD, readable, writable) <==> right)
      <==> !(right && AtTop(rs, addr + len - 1))
  {
    hide AtTop, Accessible;
    assert (addr + len + WORD - 1) % WORD == addr + len - 1;
  }

  // A byte of a region that does not allow the access is enough for the answer to be no.
  lemma ForbiddenByte(rs: seq<VmRegion>, addr: nat, len: nat, readable: bool, writable: bool, i: nat, x: nat)
    requires Disjoint(rs) && addr <= x < addr + len <= WORD && len < WORD
    requires i < |rs| && rs[i].startAddr <= x <= rs[i].endAddr
    requires (readable && !rs[i].readable) || (writable && !rs[i].writable)
    ensures !Checked(rs, addr, (addr + len + WORD - 1) % WORD, readable, writable)
  {
    hide AtTop, Accessible;
    assert (addr + len + WORD - 1) % WORD == addr + len - 1;
    OnlyRegion(rs, i, x, readable, writable);
  }

  // The last page of the address space: it may be read, and vm_prot_accessible(0xfffff000, 4096) says no.
  lemma LastPageRefused()
    ensures
      var rs := [VmRegion(0xfffff000, 0xffffffff, true, true, true, 1, 0)];
      && AllAligned(rs) && AllAccessible(rs, 0xfffff000, 0xfffff000 + 4096 - 1, true, false)
      && CheckEnds(rs, (0xfffff000 + 4096 + WORD - 1) % WORD, true, false)
      && !Checked(rs, 0xfffff000, (0xfffff000 + 4096 + WORD - 1) % WORD, true, false)
  {
    var rs := [VmRegion(0xfffff000, 0xffffffff, true, true, true, 1, 0)];
    forall x: nat | 0xfffff000 <= x <= 0xffffffff ensures Accessible(rs, x, true, false) { assert Contains(rs[0], x); }
    assert AtTop(rs, 0xffffffff) by { assert Contains(rs[0], 0xffffffff); }
    ZeroEndsIt(rs, 0xffffffff, true, false);
  }

  // Where it does run past the end, or is empty, only the first byte is checked, unless it is in such a region: then
  // all that follows it is, around to the end of the range.
  lemma AccessOfFirstByte(rs: seq<VmRegion>, addr: nat, len: nat, readable: bool, writable: bool)
    requires Disjoint(rs) && AllAligned(rs)
    requires len < WORD && addr < WORD && (addr + len > WORD || (len == 0 && addr > 0))
    requires CheckEnds(rs, (addr + len + WORD - 1) % WORD, readable, writable)
    ensures
      var stop := (addr + len + WORD - 1) % WORD;
      stop < addr
      && (Checked(rs, addr, stop, readable, writable) <==>
            if AtTop(rs, addr)
            then AllAccessible(rs, addr, WORD - 1, readable, writable) && AllAccessible(rs, 0, stop, readable, writable)
            else Accessible(rs, addr, readable, writable))
  {
    var stop := (addr + len + WORD - 1) % WORD;
    assert stop < addr;
    if AtTop(rs, addr) {
      var t :| 0 <= t < |rs| && Contains(rs[t], addr) && rs[t].endAddr == WORD - 1;
      OnlyRegion(rs, t, addr, readable, writable);
      if AtTop(rs, stop) && AllAccessible(rs, 0, stop, readable, writable) { TopIsAll(rs, stop, readable, writable); }
    }
  }

  lemma TopIsAll(rs: seq<VmRegion>, stop: nat, readable: bool, writable: bool)
    requires Disjoint(rs) && AtTop(rs, stop) && AllAccessible(rs, 0, stop, readable, writable)
    ensures AllAccessible(rs, 0, WORD - 1, readable, writable)
  {
    var u :| 0 <= u < |rs| && Contains(rs[u], stop) && rs[u].endAddr == WORD - 1;
    assert Accessible(rs, stop, readable, writable);
    OnlyRegion(rs, u, stop, readable, writable);
  }

  // What the loop knows: everything from the first byte on, up to the end of the address space and on from address 0.
  predicate Walked(rs: seq<VmRegion>, addr: nat, stop: nat, start: nat, wrapped: bool, readable: bool, writable: bool) {
    && start < WORD
    && if wrapped then
         && start <= stop && AllAccessible(rs, addr, WORD - 1, readable, writable)
         && AtTop(rs, if addr <= stop then stop else addr)
         && (start > 0 ==> AllAccessible(rs, 0, start - 1, readable, writable))
       else
         && addr <= start && (start > addr ==> start <= stop && AllAccessible(rs, addr, start - 1, readable, writable))
  }

  lemma OnlyRegion(rs: seq<VmRegion>, i: nat, x: nat, readable: bool, writable: bool)
    requires Disjoint(rs) && i < |rs| && Contains(rs[i], x)
    ensures Accessible(rs, x, readable, writable) <==>
            (readable ==> rs[i].readable) && (writable ==> rs[i].writable)
    ensures Accessible(rs, x, readable, writable) ==> AllAccessible(rs, x, rs[i].endAddr, readable, writable)
  {
    if Accessible(rs, x, readable, writable) {
      var j :| 0 <= j < |rs| && rs[j].startAddr <= x <= rs[j].endAddr
            && (readable ==> rs[j].readable) && (writable ==> rs[j].writable);
      OneContains(rs, x, i, j);
    }
  }

  lemma NoRegionNoAccess(rs: seq<VmRegion>, x: nat, readable: bool, writable: bool)
    requires forall j :: 0 <= j < |rs| ==> !Contains(rs[j], x)
    ensures !Accessible(rs, x, readable, writable)
  {}

  // A byte that may not be accessed ends the walk.
  lemma WalkStops(rs: seq<VmRegion>, addr: nat, stop: nat, start: nat, wrapped: bool, readable: bool, writable: bool)
    requires Walked(rs, addr, stop, start, wrapped, readable, writable) && !Accessible(rs, start, readable, writable)
    ensures !Checked(rs, addr, stop, readable, writable)
  {
    hide Accessible, AtTop;
  }

  // It goes on behind the region, or has seen all.
  lemma WalkStep(rs: seq<VmRegion>, addr: nat, stop: nat, start: nat, wrapped: bool, i: nat, readable: bool,
                 writable: bool)
    requires Disjoint(rs) && AllAligned(rs) && i < |rs| && Contains(rs[i], start) && addr < WORD && stop < WORD
    requires Walked(rs, addr, stop, start, wrapped, readable, writable) && CheckEnds(rs, stop, readable, writable)
    requires AllAccessible(rs, start, rs[i].endAddr, readable, writable)
    ensures
      var start', wrapped' := (rs[i].endAddr + 1) % WORD, wrapped || rs[i].endAddr == WORD - 1;
      && (start' > stop ==> Checked(rs, addr, stop, readable, writable))
      && (start' <= stop ==> Walked(rs, addr, stop, start', wrapped', readable, writable)
                             && (wrapped' == wrapped ==> start' > start))
  {
    hide Accessible, AtTop;
    assert rs[i].endAddr < WORD by { assert Aligned(rs[i]); }
    AtTopIs(rs, start, i);
    if rs[i].endAddr == WORD - 1 {
      if start <= stop { AtTopIs(rs, stop, i); }
      if wrapped { AllJoined(rs, start, readable, writable); }
    } else if rs[i].endAddr >= stop && start <= stop {
      AtTopIs(rs, stop, i);
    }
  }

  lemma AllJoined(rs: seq<VmRegion>, m: nat, readable: bool, writable: bool)
    requires (m > 0 ==> AllAccessible(rs, 0, m - 1, readable, writable))
             && AllAccessible(rs, m, WORD - 1, readable, writable)
    ensures AllAccessible(rs, 0, WORD - 1, readable, writable)
  {
    hide Accessible;
  }

  lemma AtTopIs(rs: seq<VmRegion>, x: nat, i: nat)
    requires Disjoint(rs) && i < |rs| && Contains(rs[i], x)
    ensures AtTop(rs, x) <==> rs[i].endAddr == WORD - 1
  {
    if AtTop(rs, x) {
      var j :| 0 <= j < |rs| && Contains(rs[j], x) && rs[j].endAddr == WORD - 1;
      OneContains(rs, x, i, j);
    }
  }

  // ---------------------------------------------------------------- how far an access is allowed

  predicate AccessibleAt(rs: seq<VmRegion>, addr: nat, i: nat, readable: bool, writable: bool) {
    Accessible(rs, (addr + i) % WORD, readable, writable)
  }

  predicate RunOf(rs: seq<VmRegion>, addr: nat, n: nat, readable: bool, writable: bool) {
    forall i: nat :: i < n ==> AccessibleAt(rs, addr, i, readable, writable)
  }

  // The n bytes from addr on may be accessed, and the next one may not.
  predicate Reaches(rs: seq<VmRegion>, addr: nat, n: nat, readable: bool, writable: bool) {
    RunOf(rs, addr, n, readable, writable) && !AccessibleAt(rs, addr, n, readable, writable)
  }

  // That is the longest range in the address space, unless there is no end to it before address 0, and address 0 may be
  // accessed too.
  lemma ReachIsRight(rs: seq<VmRegion>, addr: nat, n: nat, readable: bool, writable: bool)
    requires addr < WORD && n < WORD && Reaches(rs, addr, n, readable, writable)
    ensures addr + n <= WORD <==>
            !(AllAccessible(rs, addr, WORD - 1, readable, writable) && Accessible(rs, 0, readable, writable)
              && addr > 0)
    ensures addr + n <= WORD ==> forall x: nat :: addr <= x < addr + n ==> Accessible(rs, x, readable, writable)
    ensures addr + n < WORD ==> !Accessible(rs, addr + n, readable, writable)
  {
    hide Accessible;
    forall x: nat | addr <= x < addr + n && x < WORD ensures Accessible(rs, x, readable, writable) {
      assert AccessibleAt(rs, addr, x - addr, readable, writable);
    }
    assert !AccessibleAt(rs, addr, n, readable, writable);
    if addr + n > WORD { assert AccessibleAt(rs, addr, WORD - addr, readable, writable); }
  }

  lemma RunOfNothing(rs: seq<VmRegion>, addr: nat, readable: bool, writable: bool)
    ensures RunOf(rs, addr, 0, readable, writable)
  {}

  // A region's bytes follow.
  lemma RunGrows(rs: seq<VmRegion>, addr: nat, k: nat, end: nat, readable: bool, writable: bool)
    requires addr < WORD && k < WORD && (addr + k) % WORD <= end < WORD && RunOf(rs, addr, k, readable, writable)
    requires AllAccessible(rs, (addr + k) % WORD, end, readable, writable)
    requires !AllAccessible(rs, 0, WORD - 1, readable, writable)
    ensures var k' := k + end - (addr + k) % WORD + 1;
      && k' < WORD && RunOf(rs, addr, k', readable, writable) && (end + 1) % WORD == (addr + k') % WORD
      && end == (addr + k' + WORD - 1) % WORD
  {
    hide Accessible;
    var start := (addr + k) % WORD;
    var k': nat := k + end - start + 1;
    assert addr + k == start || addr + k == start + WORD;
    forall i: nat | i < k' ensures AccessibleAt(rs, addr, i, readable, writable) {
      if i >= k { assert (addr + i) % WORD == start + (i - k); }
    }
    if k' >= WORD { RunIsAll(rs, addr, k', readable, writable); }
  }

  lemma RunIsAll(rs: seq<VmRegion>, addr: nat, n: nat, readable: bool, writable: bool)
    requires addr < WORD && n >= WORD && RunOf(rs, addr, n, readable, writable)
    ensures AllAccessible(rs, 0, WORD - 1, readable, writable)
  {
    hide Accessible;
    forall x: nat | 0 <= x <= WORD - 1 ensures Accessible(rs, x, readable, writable) {
      assert AccessibleAt(rs, addr, (x - addr + WORD) % WORD, readable, writable);
    }
  }

  lemma Length(addr: nat, k: nat, stop: nat)
    requires addr < WORD && k < WORD && stop == (addr + k + WORD - 1) % WORD
    ensures (stop - addr + 1) % WORD == k
  {}

  predicate Misses(r: VmRegion, addr1: nat, addr2: nat) { r.endAddr < addr1 || r.startAddr > addr2 }

  lemma MissIsFree(rs: seq<VmRegion>, addr1: nat, addr2: nat, len: nat)
    requires addr2 == addr1 + len - 1
    ensures Free(rs, addr1, len) <==> forall i :: 0 <= i < |rs| ==> Misses(rs[i], addr1, addr2)
  {}

  lemma CutStep(before: seq<VmRegion>, n: nat, rs: seq<VmRegion>, s: nat, e: nat)
    requires n < |before| && Aligned(before[n]) && OnPages(s, e) && CutUpTo(before[..n], rs, s, e)
    ensures CutUpTo(before[..n + 1], CutList(rs, Cut(before[n], s, e)), s, e)
  {
    hide Cut, Shows, Aligned, CutList, ShownBy;
    assert before[..n + 1] == before[..n] + [before[n]];
    forall x: nat, b
      ensures Shows(CutList(rs, Cut(before[n], s, e)), x, b) <==> Shows(before[..n + 1], x, b) && Outside(x, s, e)
    {
      CutListShows(rs, before[n], s, e, x, b);
      ShowsAppend(before[..n], [before[n]], x, b);
      ShowsOneRegion(before[n], x, b);
    }
  }

  predicate Refused(addr: nat, len: nat) {
    addr % PAGESIZE != 0 || (addr + RoundUp(len) + WORD - 1) % WORD < addr
  }

  lemma EndOnPage(addr: nat, len: nat)
    requires addr < WORD && len < WORD && !Refused(addr, len)
    ensures OnPages(addr, (addr + RoundUp(len) + WORD - 1) % WORD)
  {
    RoundUpFits(len);
  }

  // It is refused if it does not begin a page, or, but at address 0, is empty or longer than what follows it.
  lemma RefusedIs(addr: nat, len: nat)
    requires addr < WORD && len < WORD
    ensures Refused(addr, len) <==> addr % 4096 != 0 || (addr > 0 && (len == 0 || addr + len > WORD))
  {
    RoundUpFits(len);
  }

  // Else its last page is the one of the last byte asked for.
  lemma LastPageIs(addr: nat, len: nat)
    requires addr < WORD && len < WORD && !Refused(addr, len)
    ensures
      var endAddr := (addr + RoundUp(len) + WORD - 1) % WORD;
      && OnPages(addr, endAddr)
      && endAddr / PAGESIZE == (if len == 0 then WORD - 1 else addr + len - 1) / PAGESIZE
  {
    EndOnPage(addr, len);
    RoundUpFits(len);
    var endAddr := (addr + RoundUp(len) + WORD - 1) % WORD;
    assert endAddr == if RoundUp(len) == 0 then WORD - 1 else addr + RoundUp(len) - 1;
  }

  // In the range given, in whole pages.
  predicate Asked(x: nat, addr: nat, len: nat) {
    addr <= x < addr + (len + PAGESIZE - 1) / PAGESIZE * PAGESIZE
  }

  // The range that is cut is the one given, but for an empty one at address 0: that unmaps everything.
  lemma MunmapRange(addr: nat, len: nat)
    requires addr < WORD && len < WORD && !Refused(addr, len)
    ensures
      var e := (addr + RoundUp(len) + WORD - 1) % WORD;
      (forall x: nat :: x < WORD ==> (Outside(x, addr, e) <==> !Asked(x, addr, len))) <==> !(addr == 0 && len == 0)
  {
    var e := (addr + RoundUp(len) + WORD - 1) % WORD;
    var n := (len + PAGESIZE - 1) / PAGESIZE;
    RoundUpFits(len);
    assert n <= WORD / PAGESIZE;
    if n == 0 {
      assert e == WORD - 1 && addr == 0;
      assert !Outside(5, addr, e) && !Asked(5, addr, len);
    } else if n == WORD / PAGESIZE {
      assert RoundUp(len) == 0 && addr == 0 && n * PAGESIZE == WORD;
    } else {
      assert RoundUp(len) == n * PAGESIZE && e == addr + n * PAGESIZE - 1;
    }
  }

  ghost predicate CutUpTo(before: seq<VmRegion>, rs: seq<VmRegion>, s: nat, e: nat) {
    forall x: nat, b :: Shows(rs, x, b) <==> Shows(before, x, b) && Outside(x, s, e)
  }

  lemma NothingCut(before: seq<VmRegion>, s: nat, e: nat)
    ensures CutUpTo(before[..0], [], s, e)
  {}
}
