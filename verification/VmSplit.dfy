/** Why munmap must not cut a region in two whose object is a shadow: in the end an object is freed that is in use. */
module VmSplit {
  import opened Basics
  import opened VmObjects
  import opened VmModel
  import opened VmRuns

  // ---------------------------------------------------------------- freed objects

  // The memory that holds objects. What free() is given keeps its fields until it is allocated again.
  datatype Heap = Heap(links: Links, pages: Pages, refs: map<ObjId, Refs>, free: set<ObjId>)

  // A state's objects are those that are not free.
  predicate Lives(h: Heap, s: State) {
    && s.store.links == h.links - h.free && s.store.pages == h.pages - h.free && s.refs == h.refs - h.free
  }

  function CombineIn(h: Heap, sub: ObjId, top: ObjId): Heap
    requires sub in h.links && top in h.links && h.links[sub].next in h.refs
  {
    var y := h.links[sub].next;
    var c := h.refs[y];
    Heap(h.links[top := h.links[top].(next := y)], CombinedPages(h.pages, sub, top),
         h.refs[y := c.(ref1 := if c.ref1 == sub then top else c.ref1, ref2 := if c.ref2 == sub then top else c.ref2)],
         h.free + {sub})
  }

  function Counted(h: Heap, o: ObjId, count: int): Heap
    requires o in h.refs
  {
    h.(refs := h.refs[o := h.refs[o].(count := count)])
  }

  function Gone(h: Heap, o: ObjId): Heap { h.(pages := h.pages - {o}, free := h.free + {o}) }

  predicate CanFree(h: Heap, o: ObjId) { Ranked(h.links) && o in h.links && h.refs.Keys == h.links.Keys }

  // vm_object_free on that memory, whether an object that it reads is free or not. None is the panic "chain is
  // corrupt", or an address that never was an object's.
  function FreeIn(h: Heap, o: ObjId): Option<Heap>
    requires CanFree(h, o)
    decreases h.links[o].birth
  {
    var next := h.links[o].next;
    var c := h.refs[o].count - 1;
    var h0 := Counted(h, o, c);
    if c > 0 then Some(h0)
    else
      var h1 :=
        if next == 0 then Some(h0)
        else if h.refs[next].count == 2 && h.links[next].kind == Shadow then
          var top := OtherRef(h.refs[next], o);
          if top == 0 then Some(h0)
          else if && top in h.links && h.links[top].next == next
                  && h.links[top].kind == Shadow && h.links[next].next != 0
          then Some(CombineIn(h0, next, top)) else None
        else FreeIn(h0, next);
      if h1.None? then None
      else if h.links[o].kind == File then h1
      else Some(Gone(h1.value, o))
  }

  // Where the model of the other modules says what vm_object_free does, this is it.
  lemma {:induction false} FreeAgrees(h: Heap, s: State, o: ObjId)
    requires Ranked(h.links) && h.refs.Keys == h.links.Keys && Lives(h, s)
    requires Ranked(s.store.links) && o in s.store.links && s.refs.Keys == s.store.links.Keys && Release(s, o).Some?
    ensures o in h.links && FreeIn(h, o).Some? && Lives(FreeIn(h, o).value, Release(s, o).value)
    decreases s.store.links[o].birth
  {
    hide Ranked, Lives, CombineIn, Combine, Gone, RemoveObject, Counted;
    LivesAt(h, s, o);
    var next := s.store.links[o].next;
    var c := s.refs[o].count - 1;
    var s0, h0 := s.(refs := s.refs[o := s.refs[o].(count := c)]), Counted(h, o, c);
    CountedLives(h, s, o, c);
    if c <= 0 && next != 0 {
      NextIn(s.store.links, o);
      LivesAt(h, s, next);
      if s.refs[next].count == 2 && s.store.links[next].kind == Shadow {
        var top := OtherRef(s.refs[next], o);
        NextIn(s.store.links, next);
        NextIn(s.store.links, top);
        LivesAt(h, s, top);
        CombineAgrees(h0, s0, next, top);
        GoneLives(CombineIn(h0, next, top), Combine(s0, next, top), o);
      } else {
        FreeAgrees(h0, s0, next);
        GoneLives(FreeIn(h0, next).value, Release(s0, next).value, o);
      }
    } else if c <= 0 {
      GoneLives(h0, s0, o);
    }
  }

  lemma LivesAt(h: Heap, s: State, o: ObjId)
    requires Lives(h, s) && s.refs.Keys == s.store.links.Keys && o in s.store.links
    ensures o in h.links && o in h.refs && h.links[o] == s.store.links[o] && h.refs[o] == s.refs[o] && o !in h.free
  {
    assert o in s.refs.Keys;
  }

  lemma CountedLives(h: Heap, s: State, o: ObjId, c: int)
    requires Lives(h, s) && o in h.refs && o in s.refs && h.refs.Keys == h.links.Keys
    ensures Lives(Counted(h, o, c), s.(refs := s.refs[o := s.refs[o].(count := c)]))
    ensures var h0 := Counted(h, o, c); h0.links == h.links && h0.refs.Keys == h0.links.Keys
  {
    var h0 := Counted(h, o, c);
    assert h0.refs - h.free == s.refs[o := s.refs[o].(count := c)];
    assert h0.refs.Keys == h.refs.Keys + {o};
  }

  lemma GoneLives(h: Heap, s: State, o: ObjId)
    requires Lives(h, s)
    ensures Lives(Gone(h, o), RemoveObject(s, o))
  {}

  lemma NextIn(links: Links, o: ObjId)
    requires Ranked(links) && o in links
    ensures o != 0
    ensures links[o].next != 0 ==> links[o].next in links && links[links[o].next].birth < links[o].birth
  {}

  lemma CombineAgrees(h: Heap, s: State, sub: ObjId, top: ObjId)
    requires Lives(h, s) && h.refs.Keys == h.links.Keys && s.refs.Keys == s.store.links.Keys
    requires sub in s.store.links && top in s.store.links && s.store.links[sub].next in s.refs
    requires sub != top && s.store.links[sub].next != sub
    ensures Lives(CombineIn(h, sub, top), Combine(s, sub, top))
  {
    var h', s' := CombineIn(h, sub, top), Combine(s, sub, top);
    assert s'.store.links == h'.links - h'.free;
    assert s'.refs == h'.refs - h'.free;
    assert ChainOf(h.pages, sub) == ChainOf(s.store.pages, sub) && ChainOf(h.pages, top) == ChainOf(s.store.pages, top);
    assert s'.store.pages == h'.pages - h'.free;
  }

  // One object after the other.
  function Frees(h: Heap, os: seq<ObjId>): Option<Heap>
    decreases |os|
  {
    if os == [] then Some(h)
    else if !CanFree(h, os[0]) || FreeIn(h, os[0]).None? then None
    else Frees(FreeIn(h, os[0]).value, os[1..])
  }

  function Held(s: State): Heap { Heap(s.store.links, s.store.pages, s.refs, {}) }

  // Object o is the only user's, over the shadow n.
  predicate OwnOver(h: Heap, o: ObjId, n: ObjId) {
    && Ranked(h.links) && h.refs.Keys == h.links.Keys && o in h.links && n in h.links
    && h.links[o].kind == Shadow && h.links[o].next == n && h.refs[o].count == 1 && h.links[n].kind == Shadow
  }

  lemma FreeMany(h: Heap, o: ObjId, n: ObjId)
    requires OwnOver(h, o, n) && h.refs[n].count > 2
    ensures CanFree(h, o)
    ensures FreeIn(h, o) == Some(Gone(Counted(Counted(h, o, 0), n, h.refs[n].count - 1), o))
  {
    var h0 := Counted(h, o, 0);
    assert n != o by { NextIn(h.links, o); }
    assert FreeIn(h0, n) == Some(Counted(h0, n, h.refs[n].count - 1));
  }

  // Of the two users of n, o goes, and the other one recorded is free, with the fields it had: vm_object_combine finds
  // nothing wrong with it. The pages of n go to what is free, n is freed, and its other user x is left with it. (Since
  // that is no state of the model, Release is None there.)
  lemma FreesInUse(h: Heap, o: ObjId, n: ObjId, x: ObjId)
    requires OwnOver(h, o, n) && h.refs[n].count == 2 && h.links[n].next != 0
    requires var top := OtherRef(h.refs[n], o);
      && top in h.links && top in h.free && top != o && h.links[top].kind == Shadow && h.links[top].next == n
    requires x in h.links && x !in h.free && x != o && h.links[x].next == n
    ensures CanFree(h, o) && FreeIn(h, o).Some?
    ensures var h', top := FreeIn(h, o).value, OtherRef(h.refs[n], o);
      && n in h'.free && x in h'.links && x !in h'.free && h'.links[x].next == n
      && top in h'.free && ChainOf(h'.pages, top) == Merge(ChainOf(h.pages, n), ChainOf(h.pages, top))
    ensures forall s :: Lives(h, s) && Ranked(s.store.links) && o in s.store.links && n in s.store.links ==>
                          s.refs.Keys == s.store.links.Keys ==> Release(s, o) == None
  {
    var top := OtherRef(h.refs[n], o);
    NextIn(h.links, o);
    NextIn(h.links, n);
    NextIn(h.links, top);
    NextIn(h.links, x);
  }

  lemma StillOwn(h: Heap, o: ObjId, n: ObjId, o': ObjId)
    requires OwnOver(h, o, n) && OwnOver(h, o', n) && o' != o
    ensures var h' := Gone(Counted(Counted(h, o, 0), n, h.refs[n].count - 1), o);
      && OwnOver(h', o', n) && h'.refs[n] == h.refs[n].(count := h.refs[n].count - 1) && h'.links == h.links
      && h'.free == h.free + {o} && h'.pages == h.pages - {o}
  {
    NextIn(h.links, o);
    NextIn(h.links, o');
    var h' := Gone(Counted(Counted(h, o, 0), n, h.refs[n].count - 1), o);
    assert h'.refs.Keys == h.refs.Keys + {o, n};
  }

  // Four users, of which n records tc and td. When td, tb and tc have been freed, in this order, n is free, with its
  // pages on td, and its user ta is not.
  lemma ThenFreed(h: Heap, n: ObjId, ta: ObjId, tb: ObjId, tc: ObjId, td: ObjId)
    requires OwnOver(h, tb, n) && OwnOver(h, tc, n) && OwnOver(h, td, n) && h.free == {} && h.refs[n] == Refs(4, tc, td)
    requires h.links[n].next != 0 && ta in h.links && h.links[ta].next == n
    requires ta !in {tb, tc, td} && tb !in {tc, td} && tc != td
    ensures var h' := Frees(h, [td, tb, tc]);
      && h'.Some? && ta in h'.value.links && ta !in h'.value.free && h'.value.links[ta].next == n
      && {n, td} <= h'.value.free && ChainOf(h'.value.pages, td) == Merge(ChainOf(h.pages, n), [])
  {
    hide FreeIn, Gone, Counted, CanFree, Frees, Merge, OwnOver;
    FreeMany(h, td, n);
    StillOwn(h, td, n, tb);
    StillOwn(h, td, n, tc);
    ShadowOver(h, td, n);
    ShadowOver(h, tb, n);
    var h1 := FreeIn(h, td).value;
    FreeMany(h1, tb, n);
    StillOwn(h1, tb, n, tc);
    var h2 := FreeIn(h1, tb).value;
    FreesInUse(h2, tc, n, ta);
    ThreeFrees(h, h1, h2, td, tb, tc);
  }

  lemma ShadowOver(h: Heap, o: ObjId, n: ObjId)
    requires OwnOver(h, o, n)
    ensures o in h.links && h.links[o].kind == Shadow && h.links[o].next == n && o != n
  {
    NextIn(h.links, o);
  }

  lemma ThreeFrees(h: Heap, h1: Heap, h2: Heap, o1: ObjId, o2: ObjId, o3: ObjId)
    requires CanFree(h, o1) && FreeIn(h, o1) == Some(h1) && CanFree(h1, o2) && FreeIn(h1, o2) == Some(h2)
             && CanFree(h2, o3)
    requires FreeIn(h2, o3).Some?
    ensures Frees(h, [o1, o2, o3]) == FreeIn(h2, o3)
  {
    hide FreeIn, CanFree;
    assert [o1, o2, o3][1..] == [o2, o3] && [o2, o3][1..] == [o3] && [o3][1..] == [];
    assert Frees(h2, [o3]) == FreeIn(h2, o3);
  }

  // ---------------------------------------------------------------- the run

  function Mem(first: nat, last: nat, cow: bool, source: ObjId): Region {
    Region(first, last, true, true, cow, source, first)
  }

  function Over(o: ObjId, birth: nat): Link { Link(Shadow, o, 0, birth) }

  const PAGES: Pages := map[2 := [PageRef(2, 9)]]
  const TABLES: PageTables := map[PageKey(1, 2) := Pte(9, false)]

  function St(links: Links, refs: map<ObjId, Refs>, regions: Regions, clock: nat): State {
    State(Store(links, PAGES, map[9 := ZeroPage], map[]), refs, regions, TABLES, map[], clock)
  }

  // Process 1 has mapped three pages of private memory and forked process 2,
  function Forked(): State {
    State(Store(map[1 := Link(Anonymous, 0, 0, 0), 2 := Over(1, 1), 3 := Over(1, 1)], map[], map[], map[]),
          map[1 := Refs(2, 0, 0), 2 := Refs(1, 0, 0), 3 := Refs(1, 0, 0)],
          map[RegKey(1, 0) := Mem(0, 2, true, 2), RegKey(2, 0) := Mem(0, 2, true, 3)], map[], map[], 2)
  }

  // then looked at the last page, which is now on its shadow,
  function Touched(): State { St(Forked().store.links, Forked().refs, Forked().regions, 2) }

  // and unmapped the middle page: two of its regions use the shadow, the upper one being first in its list.
  function Split(): State {
    St(Forked().store.links, Forked().refs[2 := Refs(2, 0, 0)],
       Forked().regions[RegKey(1, 0) := Mem(0, 0, true, 2)][RegKey(1, 2) := Mem(2, 2, true, 2)], 2)
  }

  // When it forks process 3, the shadow gets four objects above it, and records those for the lower region.
  function Again(): State {
    St(Split().store.links[4 := Over(2, 2)][5 := Over(2, 2)],
       Split().refs[2 := Refs(3, 4, 5)][4 := Refs(1, 0, 0)][5 := Refs(1, 0, 0)],
       Split().regions[RegKey(1, 2) := Mem(2, 2, true, 4)][RegKey(3, 2) := Mem(2, 2, true, 5)], 3)
  }

  function Twice(): State {
    St(Again().store.links[6 := Over(2, 3)][7 := Over(2, 3)],
       Again().refs[2 := Refs(4, 6, 7)][6 := Refs(1, 0, 0)][7 := Refs(1, 0, 0)],
       Again().regions[RegKey(1, 0) := Mem(0, 0, true, 6)][RegKey(3, 0) := Mem(0, 0, true, 7)], 4)
  }

  lemma ForkedIs()
    ensures ForkAll(AttachAnonymous(Empty, 1, Mem(0, 2, false, 1)), 1, 2, [ForkStep(0, 2, 3)]) == Some(Forked())
  {
    var s := AttachAnonymous(Empty, 1, Mem(0, 2, false, 1));
    assert WriteProtected(map[], 1, 0, 2) == map[];
    assert ForkRegion(s, RegKey(1, 0), 2, 2, 3) == Forked();
    assert ForkAll(Forked(), 1, 2, []) == Some(Forked());
  }

  lemma TouchedIs()
    ensures Ranked(Forked().store.links) && Covers(Forked().regions, RegKey(1, 0), PageKey(1, 2))
    ensures Forked().regions[RegKey(1, 0)].source in Forked().store.links
    ensures PageIn(Forked(), RegKey(1, 0), 2, 9) == Done(Touched())
  {
    assert Bottom(Forked().store.links, 1) == 1;
    assert [PageRef(2, 9)] + [] == [PageRef(2, 9)];
  }

  lemma SplitIs()
    ensures CanCut(Touched().regions, RegKey(1, 0), 1, 1) && Touched().regions[RegKey(1, 0)].source in Touched().refs
    ensures CutRegion(Touched(), RegKey(1, 0), 1, 1) == Split()
  {
    assert Unmapped(TABLES, 1, 1, 1) == TABLES;
  }

  lemma AgainIs()
    ensures RegKey(1, 2) in Split().regions && Split().regions[RegKey(1, 2)].source == 2
    ensures 2 in Split().store.links && 2 in Split().refs
    ensures ForkRegion(Split(), RegKey(1, 2), 3, 4, 5) == Again()
  {
    assert WriteProtected(TABLES, 1, 2, 2) == TABLES;
  }

  lemma ForkedLower()
    ensures RegKey(1, 0) in Again().regions && Again().regions[RegKey(1, 0)].source == 2
    ensures 2 in Again().store.links && 2 in Again().refs
    ensures ForkRegion(Again(), RegKey(1, 0), 3, 6, 7) == Twice()
  {
    assert WriteProtected(TABLES, 1, 0, 0) == TABLES;
  }

  lemma TwiceIs()
    ensures ForkAll(Split(), 1, 3, [ForkStep(2, 4, 5), ForkStep(0, 6, 7)]) == Some(Twice())
    ensures Twice().refs[2] == Refs(4, 6, 7)
    ensures forall x :: x in Twice().store.links && Twice().store.links[x].next == 2 <==> x in {4, 5, 6, 7}
  {
    hide Split, Again, Twice, ForkRegion;
    AgainIs();
    ForkedLower();
    assert ForkAll(Twice(), 1, 3, []) == Some(Twice());
    assert ForkAll(Again(), 1, 3, [ForkStep(0, 6, 7)]) == Some(Twice());
    UsersOfTwo();
  }

  lemma UsersOfTwo()
    ensures Twice().refs[2] == Refs(4, 6, 7)
    ensures forall x :: x in Twice().store.links && Twice().store.links[x].next == 2 <==> x in {4, 5, 6, 7}
  {}

  lemma TwiceOwn()
    ensures var h := Held(Twice());
      && OwnOver(h, 5, 2) && OwnOver(h, 6, 2) && OwnOver(h, 7, 2) && h.links[2].next == 1
      && 4 in h.links && h.links[4].next == 2
  {
    hide Twice, Ranked;
    TwiceLinks();
    TwiceRefs();
    TwiceRanked();
  }

  lemma TwiceLinks()
    ensures var links := Twice().store.links;
      && links.Keys == {1, 2, 3, 4, 5, 6, 7}
      && links[1] == Link(Anonymous, 0, 0, 0) && links[2] == links[3] == Over(1, 1)
      && links[4] == links[5] == Over(2, 2) && links[6] == links[7] == Over(2, 3)
  {}

  lemma TwiceRefs()
    ensures var refs := Twice().refs;
      refs.Keys == {1, 2, 3, 4, 5, 6, 7} && refs[5].count == refs[6].count == refs[7].count == 1
  {}

  lemma TwiceRanked()
    ensures Ranked(Twice().store.links)
  {
    hide Twice;
    TwiceLinks();
  }

  // The upper region of process 1, whose object is 4, then goes on in object 2, which has been freed, and whose page
  // has been moved to object 7, which had been freed before.
  lemma SplitShadowFreesInUse()
    ensures ForkAll(AttachAnonymous(Empty, 1, Mem(0, 2, false, 1)), 1, 2, [ForkStep(0, 2, 3)]) == Some(Forked())
    ensures Ranked(Forked().store.links) && Covers(Forked().regions, RegKey(1, 0), PageKey(1, 2))
    ensures Forked().regions[RegKey(1, 0)].source in Forked().store.links
    ensures PageIn(Forked(), RegKey(1, 0), 2, 9) == Done(Touched())
    ensures CanCut(Touched().regions, RegKey(1, 0), 1, 1) && Touched().regions[RegKey(1, 0)].source in Touched().refs
    ensures CutRegion(Touched(), RegKey(1, 0), 1, 1) == Split()
    ensures ForkAll(Split(), 1, 3, [ForkStep(2, 4, 5), ForkStep(0, 6, 7)]) == Some(Twice())
    ensures RegKey(1, 2) in Twice().regions && Twice().regions[RegKey(1, 2)].source == 4
    ensures var h := Frees(Held(Twice()), [7, 5, 6]);
      && h.Some? && 4 in h.value.links && 4 !in h.value.free && h.value.links[4].next == 2 && {2, 7} <= h.value.free
      && ChainOf(h.value.pages, 7) == [PageRef(2, 9)]
  {
    hide Forked, Touched, Split, Again, Twice, OwnOver, Ranked, Frees;
    ForkedIs();
    TouchedIs();
    SplitIs();
    TwiceIs();
    TwiceOwn();
    UpperIs();
    ThenFreed(Held(Twice()), 2, 4, 5, 6, 7);
  }

  lemma UpperIs()
    ensures RegKey(1, 2) in Twice().regions && Twice().regions[RegKey(1, 2)].source == 4
    ensures ChainOf(Twice().store.pages, 2) == [PageRef(2, 9)]
    ensures Merge([PageRef(2, 9)], []) == [PageRef(2, 9)]
  {
    assert [PageRef(2, 9)][1..] == [] && [PageRef(2, 9)] + [] == [PageRef(2, 9)];
  }
}
