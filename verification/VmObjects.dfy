/** Chains of vm_objects: lookup by first match, pushing a page, merging two objects. */
module VmObjects {
  import opened Basics

  const PAGESIZE := 4096

  newtype Byte = x: int | 0 <= x < 256
  type Page = s: seq<Byte> | |s| == PAGESIZE witness Zeroes(PAGESIZE)
  const ZeroPage: Page := Zeroes(PAGESIZE)

  function Zeroes(n: nat): (s: seq<Byte>)
    ensures |s| == n && forall i :: 0 <= i < n ==> s[i] == 0
  {
    if n == 0 then [] else [0] + Zeroes(n - 1)
  }

  type ObjId = nat   // address of a struct vm_object; 0 is NULL
  type Frame = nat   // index of a page in the MCB array

  datatype Kind = File | Anonymous | Shadow

  // How an object is linked. `birth` orders objects by creation: next pointers lead to older objects.
  datatype Link = Link(kind: Kind, next: ObjId, vnode: nat, birth: nat)

  // One element of a page chain: the page number within the object and the frame holding it.
  datatype PageRef = PageRef(nr: nat, frame: Frame)

  type Links = map<ObjId, Link>
  type Pages = map<ObjId, seq<PageRef>>

  predicate Ranked(links: Links) {
    && 0 !in links
    && forall o {:trigger links[o].next} :: o in links && links[o].next != 0 ==>
                     links[o].next in links && links[links[o].next].birth < links[o].birth
  }

  function ChainOf(pages: Pages, o: ObjId): seq<PageRef> {
    if o in pages then pages[o] else []
  }

  // ---------------------------------------------------------------- lookup

  // First page numbered n in one object's page chain.
  function FindIn(chain: seq<PageRef>, n: nat): Option<Frame> {
    if chain == [] then None
    else if chain[0].nr == n then Some(chain[0].frame)
    else FindIn(chain[1..], n)
  }

  // First match over the whole chain of objects.
  function Find(links: Links, pages: Pages, o: ObjId, n: nat): Option<Frame>
    requires Ranked(links) && o in links
    decreases links[o].birth
  {
    match FindIn(ChainOf(pages, o), n)
    case Some(f) => Some(f)
    case None => if links[o].next == 0 then None else Find(links, pages, links[o].next, n)
  }

  // The last object of a chain, whose pagein function supplies missing pages.
  function Bottom(links: Links, o: ObjId): (b: ObjId)
    requires Ranked(links) && o in links
    ensures b in links && links[b].next == 0
    decreases links[o].birth
  {
    if links[o].next == 0 then o else Bottom(links, links[o].next)
  }

  // ---------------------------------------------------------------- frames

  function Frames(chain: seq<PageRef>): set<Frame> {
    if chain == [] then {} else {chain[0].frame} + Frames(chain[1..])
  }

  predicate NoDup(chain: seq<PageRef>) {
    chain == [] || (chain[0].frame !in Frames(chain[1..]) && NoDup(chain[1..]))
  }

  // No frame is on two chains, or twice on one.
  predicate FramesDistinct(pages: Pages) {
    && (forall o :: o in pages ==> NoDup(pages[o]))
    && (forall o1, o2 :: o1 in pages && o2 in pages && o1 != o2 ==> Frames(pages[o1]) !! Frames(pages[o2]))
  }

  lemma FramesCons(p: PageRef, chain: seq<PageRef>)
    ensures Frames([p] + chain) == {p.frame} + Frames(chain)
    ensures NoDup([p] + chain) <==> NoDup(chain) && p.frame !in Frames(chain)
    ensures forall n :: FindIn([p] + chain, n) == if p.nr == n then Some(p.frame) else FindIn(chain, n)
  {
    assert ([p] + chain)[1..] == chain;
  }

  lemma {:induction false} FrameIn(chain: seq<PageRef>, p: PageRef)
    requires p in chain
    ensures p.frame in Frames(chain)
  {
    if p != chain[0] { FrameIn(chain[1..], p); }
  }

  lemma {:induction false} FindInWitness(chain: seq<PageRef>, n: nat)
    requires FindIn(chain, n).Some?
    ensures PageRef(n, FindIn(chain, n).value) in chain
    ensures FindIn(chain, n).value in Frames(chain)
  {
    if chain[0].nr != n { FindInWitness(chain[1..], n); }
  }

  // A found frame is on the page chain of some object x: the start, or another object's next.
  lemma {:induction false} FindWitness(links: Links, pages: Pages, o: ObjId, n: nat) returns (x: ObjId)
    requires Ranked(links) && o in links && Find(links, pages, o, n).Some?
    ensures x in links && x in pages && Find(links, pages, o, n) == FindIn(pages[x], n)
    ensures Find(links, pages, o, n).value in Frames(pages[x])
    ensures x == o || exists y :: y in links && links[y].next == x
    decreases links[o].birth
  {
    if FindIn(ChainOf(pages, o), n).Some? {
      x := o;
      FindInWitness(ChainOf(pages, o), n);
    } else {
      x := FindWitness(links, pages, links[o].next, n);
    }
  }

  // ---------------------------------------------------------------- changes that keep lookup

  // Lookup from o depends only on the objects below o.
  lemma {:induction false} Below(links: Links, pages: Pages, links': Links, pages': Pages, o: ObjId, n: nat)
    requires Ranked(links) && Ranked(links') && o in links
    requires forall x :: x in links ==> x in links' && links'[x] == links[x] && ChainOf(pages', x) == ChainOf(pages, x)
    ensures Find(links', pages', o, n) == Find(links, pages, o, n)
    ensures Bottom(links', o) == Bottom(links, o)
    decreases links[o].birth
  {
    if links[o].next != 0 { Below(links, pages, links', pages', links[o].next, n); }
  }

  function Pushed(pages: Pages, t: ObjId, p: PageRef): Pages {
    pages[t := [p] + ChainOf(pages, t)]
  }

  lemma {:induction false} PushFind(links: Links, pages: Pages, t: ObjId, p: PageRef, o: ObjId, n: nat)
    requires Ranked(links) && t in links && o in links
    ensures
      var before, after := Find(links, pages, o, n), Find(links, Pushed(pages, t, p), o, n);
      // other page numbers, and chains that t is not on, are unaffected
      && (n != p.nr ==> after == before)
      && (o != t && (forall x :: x in links ==> links[x].next != t) ==> after == before)
      // if the chain of t had no such page, whatever was found before still is
      && (Find(links, pages, t, p.nr).None? && before.Some? ==> after == before)
      // the only possible change: the new page takes the place of what t's chain gave
      && (after == before
          || (n == p.nr && after == Some(p.frame) && before == Find(links, pages, t, n)
              && Bottom(links, o) == Bottom(links, t)))
    ensures o == t && n == p.nr ==> Find(links, Pushed(pages, t, p), o, n) == Some(p.frame)
    decreases links[o].birth
  {
    FramesCons(p, ChainOf(pages, t));
    if links[o].next != 0 {
      PushFind(links, pages, t, p, links[o].next, n);
      if o == t { PushUnderlying(links, pages, t, p, links[t].next, n); }
    }
  }

  // Objects older than t do not see t.
  lemma {:induction false} PushUnderlying(links: Links, pages: Pages, t: ObjId, p: PageRef, o: ObjId, n: nat)
    requires Ranked(links) && t in links && o in links && links[o].birth < links[t].birth
    ensures Find(links, Pushed(pages, t, p), o, n) == Find(links, pages, o, n)
    decreases links[o].birth
  {
    if links[o].next != 0 { PushUnderlying(links, pages, t, p, links[o].next, n); }
  }

  // ---------------------------------------------------------------- merging

  // The page loop of vm_object_combine: pages of sub not yet in top are pushed onto top, the others dropped.
  function Merge(sub: seq<PageRef>, top: seq<PageRef>): seq<PageRef>
    decreases |sub|
  {
    if sub == [] then top
    else if FindIn(top, sub[0].nr).None? then Merge(sub[1..], [sub[0]] + top)
    else Merge(sub[1..], top)
  }

  // The pages that loop frees.
  function Hidden(sub: seq<PageRef>, top: seq<PageRef>): seq<PageRef>
    decreases |sub|
  {
    if sub == [] then []
    else if FindIn(top, sub[0].nr).None? then Hidden(sub[1..], [sub[0]] + top)
    else [sub[0]] + Hidden(sub[1..], top)
  }

  lemma {:induction false} MergeFind(sub: seq<PageRef>, top: seq<PageRef>, n: nat)
    ensures FindIn(Merge(sub, top), n) == if FindIn(top, n).Some? then FindIn(top, n) else FindIn(sub, n)
    decreases |sub|
  {
    if sub != [] {
      if FindIn(top, sub[0].nr).None? {
        MergeFind(sub[1..], [sub[0]] + top, n);
        FramesCons(sub[0], top);
      } else {
        MergeFind(sub[1..], top, n);
      }
    }
  }

  // Every page is kept or freed, exactly once; kept and freed frames stay distinct.
  lemma {:induction false} MergeFrames(sub: seq<PageRef>, top: seq<PageRef>)
    requires NoDup(sub) && NoDup(top) && Frames(sub) !! Frames(top)
    ensures Frames(Merge(sub, top)) + Frames(Hidden(sub, top)) == Frames(sub) + Frames(top)
    ensures Frames(Merge(sub, top)) !! Frames(Hidden(sub, top))
    ensures Frames(Hidden(sub, top)) <= Frames(sub)
    ensures NoDup(Merge(sub, top)) && NoDup(Hidden(sub, top))
    decreases |sub|
  {
    if sub != [] {
      if FindIn(top, sub[0].nr).None? {
        FramesCons(sub[0], top);
        MergeFrames(sub[1..], [sub[0]] + top);
      } else {
        MergeFrames(sub[1..], top);
        FramesCons(sub[0], Hidden(sub[1..], top));
      }
    }
  }

  // A page of sub survives only if lookup gives it: what is freed is what was hidden.
  lemma {:induction false} MergeKeepsFirst(sub: seq<PageRef>, top: seq<PageRef>, p: PageRef)
    requires p in Merge(sub, top)
    ensures p in top || (FindIn(top, p.nr).None? && FindIn(sub, p.nr) == Some(p.frame))
    decreases |sub|
  {
    if sub != [] {
      if FindIn(top, sub[0].nr).None? {
        MergeKeepsFirst(sub[1..], [sub[0]] + top, p);
        FramesCons(sub[0], top);
      } else {
        MergeKeepsFirst(sub[1..], top, p);
      }
    }
  }

  function CombinedLinks(links: Links, sub: ObjId, top: ObjId): Links
    requires sub in links && top in links
  {
    links[top := links[top].(next := links[sub].next)] - {sub}
  }

  function CombinedPages(pages: Pages, sub: ObjId, top: ObjId): Pages {
    pages[top := Merge(ChainOf(pages, sub), ChainOf(pages, top))] - {sub}
  }

  // Combining leaves lookup unchanged from every remaining object.
  lemma {:induction false} CombineFind(links: Links, pages: Pages, sub: ObjId, top: ObjId, o: ObjId, n: nat)
    requires Ranked(links) && sub in links && top in links && links[top].next == sub && links[sub].next != 0
    requires forall x :: x in links && links[x].next == sub ==> x == top
    requires o in links && o != sub
    ensures Ranked(CombinedLinks(links, sub, top))
    ensures Find(CombinedLinks(links, sub, top), CombinedPages(pages, sub, top), o, n) == Find(links, pages, o, n)
    ensures Bottom(CombinedLinks(links, sub, top), o) == Bottom(links, o)
    decreases links[o].birth
  {
    CombineRanked(links, sub, top);
    if o == top {
      MergeFind(ChainOf(pages, sub), ChainOf(pages, top), n);
      CombineFind(links, pages, sub, top, links[sub].next, n);
    } else if links[o].next != 0 {
      CombineFind(links, pages, sub, top, links[o].next, n);
    }
  }

  lemma CombineRanked(links: Links, sub: ObjId, top: ObjId)
    requires Ranked(links) && sub in links && top in links && links[top].next == sub && links[sub].next != 0
    requires forall x :: x in links && links[x].next == sub ==> x == top
    ensures Ranked(CombinedLinks(links, sub, top))
  {
    var links' := CombinedLinks(links, sub, top);
    forall x | x in links' && links'[x].next != 0
      ensures links'[x].next in links' && links'[links'[x].next].birth < links'[x].birth
    {
      assert links[links[sub].next].birth < links[sub].birth < links[top].birth;
      assert links[x].next == 0 || links[links[x].next].birth < links[x].birth;
    }
  }
}
