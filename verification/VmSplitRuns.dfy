/** Which cuts are safe in every continuation: a region whose object is a shadow must not be cut in two, and any other
    cut is harmless. */
module VmSplitRuns {
  import opened Basics
  import opened VmObjects
  import opened VmModel
  import opened VmInvariants
  import opened VmRefinement
  import opened VmRuns
  import opened VmCut
  import opened VmTheorems
  import opened VmSplit

  // ---------------------------------------------------------------- what steps keep, also after such a cut

  predicate Tidy(s: State) {
    && Stepable(s) && Aged(s.store.links, s.clock)
    && (forall k :: k in s.regions ==> k.first == s.regions[k].first)
    && forall v :: v in s.vmobj ==> s.vmobj[v] in s.store.links && s.store.links[s.vmobj[v]].kind != Shadow
  }

  lemma GoodIsTidy(s: State, a: Memory)
    requires Good(s, a)
    ensures Tidy(s)
  {
    hide Refines, RefsOk, RegionsOk, PtOk, Used, InPlaceOk;
    GoodIsStepable(s, a);
    forall k | k in s.regions ensures k.first == s.regions[k].first { IsRegionOk(s.store.links, s.regions, k); }
  }

  lemma CutIsTidy(s: State, k: RegKey, lo: nat, hi: nat)
    requires Tidy(s) && CanCut(s.regions, k, lo, hi)
    ensures s.regions[k].source in s.refs && Tidy(CutRegion(s, k, lo, hi))
  {
    hide Ranked;
    assert s.regions[k].source in s.refs.Keys;
  }

  // A process that forks: its child has only regions from rounds that are done.
  predicate InFork(s: State, parent: nat, child: nat, used: set<ObjId>, done: set<nat>) {
    && Tidy(s) && parent != child && s.store.links.Keys <= used
    && forall k :: k in s.regions && k.pid == child ==> k.first in done
  }

  predicate CanRound(s: State, k: RegKey, child: nat, used: set<ObjId>, done: set<nat>, t1: ObjId, t2: ObjId) {
    && InFork(s, k.pid, child, used, done) && k in s.regions && k.first !in done
    && t1 !in used && t2 !in used && t1 != t2 && t1 != 0 && t2 != 0
  }

  lemma RoundTidy(s: State, k: RegKey, child: nat, used: set<ObjId>, done: set<nat>, t1: ObjId, t2: ObjId)
    requires CanRound(s, k, child, used, done, t1, t2)
    ensures s.regions[k].source in s.store.links && s.regions[k].source in s.refs
    ensures var s' := ForkRegion(s, k, child, t1, t2);
      InFork(s', k.pid, child, used + {t1, t2}, done + {k.first}) && s.regions.Keys <= s'.regions.Keys
  {
    hide Ranked, Aged, ForkRegion;
    assert s.regions[k].source in s.refs.Keys;
    RoundRanked(s, k, child, t1, t2);
    RoundKeys(s, k, child, t1, t2);
    RoundPlaced(s, k, child, t1, t2);
    RoundRegions(s, k, child, t1, t2, done);
    var s' := ForkRegion(s, k, child, t1, t2);
    forall v | v in s'.vmobj ensures s'.vmobj[v] in s'.refs { assert s.vmobj[v] in s.refs.Keys; }
  }

  lemma RoundRanked(s: State, k: RegKey, child: nat, t1: ObjId, t2: ObjId)
    requires Ranked(s.store.links) && Aged(s.store.links, s.clock) && t1 !in s.store.links && t2 !in s.store.links
    requires k in s.regions && s.regions[k].source in s.store.links && s.regions[k].source in s.refs
    requires t1 != 0 && t2 != 0
    ensures var s' := ForkRegion(s, k, child, t1, t2); Ranked(s'.store.links) && Aged(s'.store.links, s'.clock)
  {
    hide Ranked, Aged;
    RankedPair(s.store.links, s.regions[k].source, t1, t2, s.clock);
  }

  lemma RoundRegions(s: State, k: RegKey, child: nat, t1: ObjId, t2: ObjId, done: set<nat>)
    requires k in s.regions && s.regions[k].source in s.store.links && s.regions[k].source in s.refs
    requires forall k' :: k' in s.regions ==> k'.first == s.regions[k'].first
    requires forall k' :: k' in s.regions && k'.pid == child ==> k'.first in done
    requires k.pid != child
    ensures var s' := ForkRegion(s, k, child, t1, t2);
      && (forall k' :: k' in s'.regions ==> k'.first == s'.regions[k'].first)
      && (forall k' :: k' in s'.regions && k'.pid == child ==> k'.first in done + {k.first})
  {}

  lemma RoundKeys(s: State, k: RegKey, child: nat, t1: ObjId, t2: ObjId)
    requires k in s.regions && s.regions[k].source in s.store.links && s.regions[k].source in s.refs
    requires s.refs.Keys == s.store.links.Keys
    ensures var s' := ForkRegion(s, k, child, t1, t2);
      && s'.refs.Keys == s'.store.links.Keys <= s.store.links.Keys + {t1, t2} && s.refs.Keys <= s'.refs.Keys
      && s'.regions.Keys == s.regions.Keys + {RegKey(child, s.regions[k].first)} && s'.vmobj == s.vmobj
      && s'.clock >= s.clock
  {
    var s' := ForkRegion(s, k, child, t1, t2);
    if s.regions[k].writable {
      assert s'.refs.Keys == s.refs.Keys + {t1, t2} && s'.store.links.Keys == s.store.links.Keys + {t1, t2};
    } else {
      assert s'.refs.Keys == s.refs.Keys;
    }
  }

  // Every region still has an object, and objects stay what they are.
  lemma RoundPlaced(s: State, k: RegKey, child: nat, t1: ObjId, t2: ObjId)
    requires k in s.regions && s.regions[k].source in s.store.links && s.regions[k].source in s.refs
    requires forall k' :: k' in s.regions ==> s.regions[k'].source in s.store.links
    requires t1 !in s.store.links && t2 !in s.store.links
    ensures var s' := ForkRegion(s, k, child, t1, t2);
      && (forall k' :: k' in s'.regions ==> s'.regions[k'].source in s'.store.links)
      && (forall o :: o in s.store.links ==> o in s'.store.links && s'.store.links[o] == s.store.links[o])
  {}

  lemma RankedPair(links: Links, o: ObjId, t1: ObjId, t2: ObjId, clock: nat)
    requires Ranked(links) && Aged(links, clock) && o in links && t1 !in links && t2 !in links && t1 != 0 && t2 != 0
    ensures var l := Link(Shadow, o, 0, clock);
      Ranked(links[t1 := l][t2 := l]) && Aged(links[t1 := l][t2 := l], clock + 1)
  {}

  // ---------------------------------------------------------------- the users of the shadow

  predicate IsShadow(s: State, o: ObjId) {
    o in s.store.links && o in s.refs && s.store.links[o].kind == Shadow && s.store.links[o].next != 0
  }

  // Region k has a shadow x of its own, over o.
  predicate OnlyUser(s: State, k: RegKey, x: ObjId, o: ObjId) {
    && k in s.regions && s.regions[k].source == x && IsShadow(s, x) && s.store.links[x].next == o
    && s.refs[x].count == 1
    && (forall k' :: k' in s.regions && s.regions[k'].source == x ==> k' == k)
    && forall y :: y in s.store.links ==> s.store.links[y].next != x
  }

  // The regions whose object is o are those of ks.
  ghost predicate UsedBy(s: State, o: ObjId, ks: set<RegKey>) {
    forall k :: k in s.regions && s.regions[k].source == o <==> k in ks
  }

  predicate Writable(s: State, k: RegKey) { k in s.regions && s.regions[k].writable }

  // After the cut, after the fork of one part, and after that of both.
  ghost predicate TwoParts(s: State, o: ObjId, k1: RegKey, k2: RegKey) {
    IsShadow(s, o) && s.refs[o].count == 2 && UsedBy(s, o, {k1, k2}) && Writable(s, k1) && Writable(s, k2)
  }

  ghost predicate OneForked(s: State, o: ObjId, k1: RegKey, k2: RegKey, child: nat, ta: ObjId, tb: ObjId) {
    && IsShadow(s, o) && s.refs[o].count == 3 && UsedBy(s, o, {k2}) && Writable(s, k2)
    && OnlyUser(s, k1, ta, o) && OnlyUser(s, RegKey(child, k1.first), tb, o)
  }

  ghost predicate BothForked(s: State, o: ObjId, k1: RegKey, k2: RegKey, child: nat, ta: ObjId, tb: ObjId, tc: ObjId,
                             td: ObjId) {
    && IsShadow(s, o) && s.refs[o] == Refs(4, tc, td) && UsedBy(s, o, {})
    && OnlyUser(s, k1, ta, o) && OnlyUser(s, RegKey(child, k1.first), tb, o)
    && OnlyUser(s, k2, tc, o) && OnlyUser(s, RegKey(child, k2.first), td, o)
  }

  // ---------------------------------------------------------------- one round of fork

  // A round for a region with another object leaves them as they are.
  lemma RoundKeepsUser(s: State, k: RegKey, child: nat, used: set<ObjId>, done: set<nat>, t1: ObjId, t2: ObjId,
                       k': RegKey, x: ObjId, o: ObjId)
    requires CanRound(s, k, child, used, done, t1, t2) && OnlyUser(s, k', x, o) && k' != k
    ensures s.regions[k].source in s.store.links && s.regions[k].source in s.refs
    ensures OnlyUser(ForkRegion(s, k, child, t1, t2), k', x, o)
  {
    hide Ranked, Aged, OnlyUser, ForkRegion;
    assert s.regions[k].source in s.refs.Keys;
    UserIn(s, k', x, o);
    ForkKeepsUser(s, k, child, t1, t2, k', x, o);
  }

  lemma ForkKeepsUser(s: State, k: RegKey, child: nat, t1: ObjId, t2: ObjId, k': RegKey, x: ObjId, o: ObjId)
    requires k in s.regions && s.regions[k].source in s.store.links && s.regions[k].source in s.refs && k' != k
    requires t1 !in s.store.links && t2 !in s.store.links && k' != RegKey(child, s.regions[k].first)
    requires OnlyUser(s, k', x, o)
    ensures OnlyUser(ForkRegion(s, k, child, t1, t2), k', x, o)
  {}

  lemma RoundKeepsShadow(s: State, k: RegKey, child: nat, used: set<ObjId>, done: set<nat>, t1: ObjId, t2: ObjId,
                         o: ObjId, ks: set<RegKey>)
    requires CanRound(s, k, child, used, done, t1, t2) && IsShadow(s, o) && s.regions[k].source != o
    requires UsedBy(s, o, ks) && forall k' :: k' in ks ==> Writable(s, k')
    ensures s.regions[k].source in s.store.links && s.regions[k].source in s.refs
    ensures var s' := ForkRegion(s, k, child, t1, t2);
      && IsShadow(s', o) && s'.refs[o] == s.refs[o] && UsedBy(s', o, ks)
      && forall k' :: k' in ks ==> Writable(s', k')
  {
    hide Ranked, Aged;
    assert s.regions[k].source in s.refs.Keys;
    assert o in used;
  }

  // A round for a region whose object is the shadow.
  lemma RoundOfShadow(s: State, k: RegKey, child: nat, used: set<ObjId>, done: set<nat>, t1: ObjId, t2: ObjId, o: ObjId,
                      ks: set<RegKey>)
    requires CanRound(s, k, child, used, done, t1, t2) && IsShadow(s, o) && UsedBy(s, o, ks) && k in ks
             && Writable(s, k)
    ensures s.regions[k].source in s.store.links && s.regions[k].source in s.refs
    ensures var s' := ForkRegion(s, k, child, t1, t2);
      && IsShadow(s', o) && s'.refs[o] == Refs(s.refs[o].count + 1, t1, t2) && UsedBy(s', o, ks - {k})
      && OnlyUser(s', k, t1, o) && OnlyUser(s', RegKey(child, k.first), t2, o)
      && forall k' :: k' in ks - {k} && Writable(s, k') ==> Writable(s', k')
  {
    hide Aged;
    assert s.regions[k].source in s.refs.Keys;
    assert o in used;
  }

  // ---------------------------------------------------------------- the whole fork

  ghost predicate Plannable(s: State, parent: nat, child: nat, used: set<ObjId>, done: set<nat>, plan: seq<ForkStep>) {
    && InFork(s, parent, child, used, done) && GoodPlan(used, done, plan)
    && forall x :: x in Firsts(plan) ==> RegKey(parent, x) in s.regions
  }

  // The first round of a plan, and what is left of it.
  lemma NextRound(s: State, parent: nat, child: nat, used: set<ObjId>, done: set<nat>, plan: seq<ForkStep>)
    requires Plannable(s, parent, child, used, done, plan) && plan != []
    ensures var k, t1, t2 := RegKey(parent, plan[0].first), plan[0].t1, plan[0].t2;
      && CanRound(s, k, child, used, done, t1, t2)
      && s.regions[k].source in s.store.links && s.regions[k].source in s.refs
      && var s' := ForkRegion(s, k, child, t1, t2);
         && Plannable(s', parent, child, used + {t1, t2}, done + {k.first}, plan[1..])
         && ForkAll(s, parent, child, plan) == ForkAll(s', parent, child, plan[1..])
    ensures Firsts(plan) == {plan[0].first} + Firsts(plan[1..])
  {
    hide InFork, ForkRegion;
    var k, t1, t2 := RegKey(parent, plan[0].first), plan[0].t1, plan[0].t2;
    assert plan[0].first in Firsts(plan);
    RoundTidy(s, k, child, used, done, t1, t2);
    forall x | x in Firsts(plan[1..]) ensures RegKey(parent, x) in ForkRegion(s, k, child, t1, t2).regions {
      assert RegKey(parent, x) in s.regions.Keys;
    }
  }

  // How the fork of a process with the two parts ends.
  ghost predicate Ends(s': Option<State>, o: ObjId, k1: RegKey, k2: RegKey, child: nat,
                       ta: ObjId, tb: ObjId, tc: ObjId, td: ObjId) {
    s'.Some? && Tidy(s'.value) && BothForked(s'.value, o, k1, k2, child, ta, tb, tc, td)
  }

  lemma {:induction false} ForkRest(s: State, parent: nat, child: nat, used: set<ObjId>, done: set<nat>,
                                    plan: seq<ForkStep>, o: ObjId, k1: RegKey, k2: RegKey,
                                    ta: ObjId, tb: ObjId, tc: ObjId, td: ObjId)
    requires Plannable(s, parent, child, used, done, plan) && BothForked(s, o, k1, k2, child, ta, tb, tc, td)
    requires k1.pid == k2.pid == parent && k1.first in done && k2.first in done
    ensures Ends(ForkAll(s, parent, child, plan), o, k1, k2, child, ta, tb, tc, td)
    decreases |plan|
  {
    hide CanRound, ForkRegion, OnlyUser, UsedBy, IsShadow, Tidy, Firsts;
    if plan == [] {
      InForkIsTidy(s, parent, child, used, done);
    } else {
      var k, t1, t2 := RegKey(parent, plan[0].first), plan[0].t1, plan[0].t2;
      NextRound(s, parent, child, used, done, plan);
      RoundIsNew(s, k, child, used, done, t1, t2);
      var s' := ForkRegion(s, k, child, t1, t2);
      NotTheirs(s, k, o, {});
      RoundKeepsShadow(s, k, child, used, done, t1, t2, o, {});
      RoundKeepsUser(s, k, child, used, done, t1, t2, k1, ta, o);
      RoundKeepsUser(s, k, child, used, done, t1, t2, RegKey(child, k1.first), tb, o);
      RoundKeepsUser(s, k, child, used, done, t1, t2, k2, tc, o);
      RoundKeepsUser(s, k, child, used, done, t1, t2, RegKey(child, k2.first), td, o);
      ForkRest(s', parent, child, used + {t1, t2}, done + {k.first}, plan[1..], o, k1, k2, ta, tb, tc, td);
    }
  }

  lemma InForkIsTidy(s: State, parent: nat, child: nat, used: set<ObjId>, done: set<nat>)
    requires InFork(s, parent, child, used, done)
    ensures Tidy(s)
  {}

  lemma RoundIsNew(s: State, k: RegKey, child: nat, used: set<ObjId>, done: set<nat>, t1: ObjId, t2: ObjId)
    requires CanRound(s, k, child, used, done, t1, t2)
    ensures k.first !in done && k.pid != child && k in s.regions
  {}

  lemma NotTheirs(s: State, k: RegKey, o: ObjId, ks: set<RegKey>)
    requires UsedBy(s, o, ks) && k in s.regions && k !in ks
    ensures s.regions[k].source != o
  {}

  lemma {:induction false} ForkSecond(s: State, parent: nat, child: nat, used: set<ObjId>, done: set<nat>,
                                      plan: seq<ForkStep>, o: ObjId, k1: RegKey, k2: RegKey, ta: ObjId, tb: ObjId)
    returns (tc: ObjId, td: ObjId)
    requires Plannable(s, parent, child, used, done, plan) && OneForked(s, o, k1, k2, child, ta, tb)
    requires k1.pid == k2.pid == parent && k1.first in done && k2.first in Firsts(plan)
    ensures Ends(ForkAll(s, parent, child, plan), o, k1, k2, child, ta, tb, tc, td)
    decreases |plan|
  {
    hide CanRound, ForkRegion, OnlyUser, UsedBy, IsShadow, Tidy, InFork, Ends, Writable;
    var k, t1, t2 := RegKey(parent, plan[0].first), plan[0].t1, plan[0].t2;
    NextRound(s, parent, child, used, done, plan);
    RoundIsNew(s, k, child, used, done, t1, t2);
    var s' := ForkRegion(s, k, child, t1, t2);
    RoundKeepsUser(s, k, child, used, done, t1, t2, k1, ta, o);
    RoundKeepsUser(s, k, child, used, done, t1, t2, RegKey(child, k1.first), tb, o);
    if k == k2 {
      RoundOfShadow(s, k, child, used, done, t1, t2, o, {k2});
      tc, td := t1, t2;
      assert {k2} - {k} == {};
      ForkRest(s', parent, child, used + {t1, t2}, done + {k.first}, plan[1..], o, k1, k2, ta, tb, tc, td);
    } else {
      NotTheirs(s, k, o, {k2});
      RoundKeepsShadow(s, k, child, used, done, t1, t2, o, {k2});
      tc, td := ForkSecond(s', parent, child, used + {t1, t2}, done + {k.first}, plan[1..], o, k1, k2, ta, tb);
    }
  }

  lemma {:induction false} ForkParts(s: State, parent: nat, child: nat, used: set<ObjId>, done: set<nat>,
                                     plan: seq<ForkStep>, o: ObjId, kl: RegKey, kh: RegKey)
    returns (k1: RegKey, k2: RegKey, ta: ObjId, tb: ObjId, tc: ObjId, td: ObjId)
    requires Plannable(s, parent, child, used, done, plan) && TwoParts(s, o, kl, kh)
    requires kl.pid == kh.pid == parent && kl != kh && kl.first in Firsts(plan) && kh.first in Firsts(plan)
    ensures (k1 == kl && k2 == kh) || (k1 == kh && k2 == kl)
    ensures Ends(ForkAll(s, parent, child, plan), o, k1, k2, child, ta, tb, tc, td)
    decreases |plan|
  {
    hide CanRound, ForkRegion, OnlyUser, UsedBy, IsShadow, Tidy, InFork, Ends, Writable;
    var k, t1, t2 := RegKey(parent, plan[0].first), plan[0].t1, plan[0].t2;
    NextRound(s, parent, child, used, done, plan);
    RoundIsNew(s, k, child, used, done, t1, t2);
    var s' := ForkRegion(s, k, child, t1, t2);
    if k == kl || k == kh {
      k1, k2, ta, tb := k, if k == kl then kh else kl, t1, t2;
      RoundOfShadow(s, k, child, used, done, t1, t2, o, {kl, kh});
      assert {kl, kh} - {k} == {k2};
      tc, td := ForkSecond(s', parent, child, used + {t1, t2}, done + {k.first}, plan[1..], o, k1, k2, ta, tb);
    } else {
      NotTheirs(s, k, o, {kl, kh});
      RoundKeepsShadow(s, k, child, used, done, t1, t2, o, {kl, kh});
      k1, k2, ta, tb, tc, td :=
        ForkParts(s', parent, child, used + {t1, t2}, done + {k.first}, plan[1..], o, kl, kh);
    }
  }

  // ---------------------------------------------------------------- three regions go

  // Detaching a region whose object is its own, over a shadow with more than two users.
  function Dropped(s: State, k: RegKey, o: ObjId): State
    requires k in s.regions && s.regions[k].source in s.refs && o in s.refs
  {
    var r := s.regions[k];
    var c, co := s.refs[r.source], s.refs[o];
    RemoveObject(s.(regions := s.regions - {k}, pt := Unmapped(s.pt, k.pid, r.first, r.last),
                    refs := s.refs[r.source := c.(count := 0)][o := co.(count := co.count - 1)]), r.source)
  }

  lemma DetachMany(s: State, k: RegKey, x: ObjId, o: ObjId)
    requires Tidy(s) && IsShadow(s, o) && OnlyUser(s, k, x, o) && s.refs[o].count > 2
    ensures Detach(s, k) == Some(Dropped(s, k, o))
  {
    hide Release, Unmapped, Ranked, RemoveObject;
    var r := s.regions[k];
    NextIn(s.store.links, x);
    ReleaseOver(s.(regions := s.regions - {k}, pt := Unmapped(s.pt, k.pid, r.first, r.last)), x, o);
  }

  lemma ReleaseOver(s: State, x: ObjId, o: ObjId)
    requires Ranked(s.store.links) && s.refs.Keys == s.store.links.Keys && x in s.store.links && o in s.store.links
             && x != o
    requires s.store.links[x].next == o && o != 0 && s.store.links[x].kind != File
    requires s.refs[x].count == 1 && s.refs[o].count > 2
    ensures Release(s, x) == Some(RemoveObject(s.(refs := s.refs[x := s.refs[x].(count := 0)]
                                                                  [o := s.refs[o].(count := s.refs[o].count - 1)]), x))
  {
    hide RemoveObject, Combine;
    var s0 := s.(refs := s.refs[x := s.refs[x].(count := 0)]);
    ReleaseOneOfMany(s0, o) by { assert s0.refs.Keys == s.refs.Keys; }
  }

  lemma ReleaseOneOfMany(s: State, o: ObjId)
    requires Ranked(s.store.links) && s.refs.Keys == s.store.links.Keys && o in s.store.links && s.refs[o].count > 1
    ensures Release(s, o) == Some(s.(refs := s.refs[o := s.refs[o].(count := s.refs[o].count - 1)]))
  {
    hide Ranked, Combine, RemoveObject;
  }

  lemma DroppedTidy(s: State, k: RegKey, x: ObjId, o: ObjId)
    requires Tidy(s) && IsShadow(s, o) && OnlyUser(s, k, x, o)
    ensures var s' := Dropped(s, k, o);
      && Tidy(s') && IsShadow(s', o) && s'.refs[o] == s.refs[o].(count := s.refs[o].count - 1) && x !in s'.store.links
      && s'.regions == s.regions - {k}
  {
    hide Ranked, Aged, Unmapped;
    NextIn(s.store.links, x);
    RankedWithout(s.store.links, s.clock, x);
    var s' := Dropped(s, k, o);
    assert s'.refs.Keys == s.refs.Keys - {x};
  }

  lemma RankedWithout(links: Links, clock: nat, x: ObjId)
    requires Ranked(links) && Aged(links, clock) && forall y :: y in links ==> links[y].next != x
    ensures Ranked(links - {x}) && Aged(links - {x}, clock)
  {}

  lemma DroppedKeepsUser(s: State, k: RegKey, x: ObjId, o: ObjId, k': RegKey, x': ObjId)
    requires Tidy(s) && IsShadow(s, o) && OnlyUser(s, k, x, o) && OnlyUser(s, k', x', o) && k' != k
    ensures OnlyUser(Dropped(s, k, o), k', x', o)
  {
    hide Tidy;
    NextOfUser(s, k, x, o);
    NextOfUser(s, k', x', o);
  }

  lemma NextOfUser(s: State, k: RegKey, x: ObjId, o: ObjId)
    requires Tidy(s) && OnlyUser(s, k, x, o)
    ensures x != o
  {
    NextIn(s.store.links, x);
  }

  // The other user recorded is no object any more.
  lemma DetachFails(s: State, k: RegKey, x: ObjId, o: ObjId)
    requires Tidy(s) && IsShadow(s, o) && OnlyUser(s, k, x, o) && s.refs[o].count == 2
    requires OtherRef(s.refs[o], x) !in s.store.links
    ensures Detach(s, k) == None
  {
    NextOfUser(s, k, x, o);
  }

  // What the three detachments do.
  ghost predicate Fails(s: State, c0: RegKey, c1: RegKey, k: RegKey) {
    && Stepable(s) && c0 in s.regions && Detach(s, c0).Some?
    && var s1 := Detach(s, c0).value;
    && Stepable(s1) && c1 in s1.regions && Detach(s1, c1).Some?
    && var s2 := Detach(s1, c1).value;
    && Stepable(s2) && k in s2.regions && Detach(s2, k) == None
  }

  lemma ThenFails(s: State, o: ObjId, k1: RegKey, k2: RegKey, child: nat, ta: ObjId, tb: ObjId, tc: ObjId, td: ObjId)
    requires Tidy(s) && BothForked(s, o, k1, k2, child, ta, tb, tc, td) && k1.pid == k2.pid != child && k1 != k2
    ensures Fails(s, RegKey(child, k2.first), RegKey(child, k1.first), k2)
  {
    hide Tidy, OnlyUser, IsShadow, Detach, Dropped;
    var c0, c1 := RegKey(child, k2.first), RegKey(child, k1.first);
    assert o in s.refs by { ShadowIn(s, o); }
    UserIn(s, c0, td, o);
    DetachMany(s, c0, td, o);
    DroppedTidy(s, c0, td, o);
    DroppedKeepsUser(s, c0, td, o, c1, tb);
    DroppedKeepsUser(s, c0, td, o, k2, tc);
    var s1 := Dropped(s, c0, o);
    TidyIsStepable(s);
    TidyIsStepable(s1);
    ShadowIn(s1, o);
    UserIn(s1, c1, tb, o);
    DetachMany(s1, c1, tb, o);
    DroppedTidy(s1, c1, tb, o);
    DroppedKeepsUser(s1, c1, tb, o, k2, tc);
    var s2 := Dropped(s1, c1, o);
    TidyIsStepable(s2);
    UserIn(s2, k2, tc, o);
    UserIn(s, k2, tc, o);
    assert td !in s2.store.links by { FewerLinks(s1, c1, o); }
    DetachFails(s2, k2, tc, o);
  }

  lemma TidyIsStepable(s: State)
    requires Tidy(s)
    ensures Stepable(s)
  {}

  lemma ShadowIn(s: State, o: ObjId)
    requires IsShadow(s, o)
    ensures o in s.refs && o in s.store.links
  {}

  lemma UserIn(s: State, k: RegKey, x: ObjId, o: ObjId)
    requires OnlyUser(s, k, x, o)
    ensures k in s.regions && s.regions[k].source == x && x in s.store.links && x in s.refs
            && s.store.links[x].next == o
  {}

  lemma FewerLinks(s: State, k: RegKey, o: ObjId)
    requires k in s.regions && s.regions[k].source in s.refs && o in s.refs
    ensures Dropped(s, k, o).store.links.Keys <= s.store.links.Keys
  {}

  // ---------------------------------------------------------------- the cut

  predicate CutsShadow(s: State, k: RegKey, lo: nat, hi: nat) {
    && CanCut(s.regions, k, lo, hi) && InTwo(s.regions[k], lo, hi) && s.regions[k].source in s.store.links
    && s.store.links[s.regions[k].source].kind == Shadow
  }

  lemma CutHasTwoParts(s: State, a: Memory, k: RegKey, lo: nat, hi: nat)
    requires Good(s, a) && CutsShadow(s, k, lo, hi)
    ensures s.regions[k].source in s.refs
    ensures TwoParts(CutRegion(s, k, lo, hi), s.regions[k].source, k, RegKey(k.pid, hi + 1))
  {
    hide Refines, PtOk, FilesOk, StoreOk, Used, InPlaceOk, RegionsOk, RefsOk;
    var o := s.regions[k].source;
    IsRegionOk(s.store.links, s.regions, k);
    ShadowCount(s.store.links, s.regions, s.refs, o);
    assert RegRefs(s.regions, o) == {k};
    forall k' | k' in s.regions && s.regions[k'].source == o ensures k' == k { assert k' in RegRefs(s.regions, o); }
  }

  lemma ShadowCount(links: Links, regions: Regions, refs: map<ObjId, Refs>, o: ObjId)
    requires RefsOk(links, regions, refs) && o in links && links[o].kind == Shadow
    ensures o in refs && refs[o].count == |RegRefs(regions, o)| + |ObjRefs(links, o)| && links[o].next != 0
  {
    assert RefOk(links, regions, o, refs[o]);
    assert o in refs.Keys;
  }

  lemma ForkPlannable(s: State, parent: nat, child: nat, plan: seq<ForkStep>)
    requires Tidy(s) && Enabled(s, Fork(parent, child, plan))
    ensures Plannable(s, parent, child, s.store.links.Keys, {}, plan)
  {
    hide Tidy;
    forall x | x in Firsts(plan) ensures RegKey(parent, x) in s.regions {
      assert x in FirstsOf(s.regions, parent);
      var k :| k in s.regions && k.pid == parent && k.first == x;
      assert k == RegKey(parent, x);
    }
  }

  // After a cut in two of a region whose object is a shadow, whatever fork comes next: when the child has unmapped its
  // two parts c0 and c1, unmapping the parent's part k1 fails. It frees the shadow, and moves its pages to an object
  // that is free, while the part k2 of the parent goes on in the shadow.
  lemma CutInTwoBreaks(s: State, a: Memory, k: RegKey, lo: nat, hi: nat, child: nat, plan: seq<ForkStep>)
    returns (c0: RegKey, c1: RegKey, k1: RegKey, k2: RegKey)
    requires Good(s, a) && CutsShadow(s, k, lo, hi) && s.regions[k].source in s.refs
    requires Enabled(CutRegion(s, k, lo, hi), Fork(k.pid, child, plan))
    ensures {k1, k2} == {k, RegKey(k.pid, hi + 1)} && c0 == RegKey(child, k1.first) && c1 == RegKey(child, k2.first)
    ensures var s' := ForkAll(CutRegion(s, k, lo, hi), k.pid, child, plan);
      s'.Some? && Fails(s'.value, c0, c1, k1) && FreesShadow(s'.value, c0, c1, k1, k2, s.regions[k].source)
  {
    hide Tidy, Enabled, Plannable, TwoParts, Ends, Fails, FreesShadow, CutRegion, Good;
    var o, kh := s.regions[k].source, RegKey(k.pid, hi + 1);
    var s0 := CutRegion(s, k, lo, hi);
    GoodIsTidy(s, a);
    CutIsTidy(s, k, lo, hi);
    CutHasTwoParts(s, a, k, lo, hi);
    ForkPlannable(s0, k.pid, child, plan);
    PartsPlanned(s, k, lo, hi, child, plan);
    var ta, tb, tc, td;
    k2, k1, ta, tb, tc, td := ForkParts(s0, k.pid, child, s0.store.links.Keys, {}, plan, o, k, kh);
    c0, c1 := RegKey(child, k1.first), RegKey(child, k2.first);
    var s' := ForkAll(s0, k.pid, child, plan);
    EndsIs(s', o, k2, k1, child, ta, tb, tc, td);
    ChildIsNew(s0, k.pid, child, plan);
    ThenFails(s'.value, o, k2, k1, child, ta, tb, tc, td);
    ThenFreesShadow(s'.value, o, k2, k1, child, ta, tb, tc, td);
  }

  lemma EndsIs(s': Option<State>, o: ObjId, k1: RegKey, k2: RegKey, child: nat, ta: ObjId, tb: ObjId, tc: ObjId,
               td: ObjId)
    requires Ends(s', o, k1, k2, child, ta, tb, tc, td)
    ensures s'.Some? && Tidy(s'.value) && BothForked(s'.value, o, k1, k2, child, ta, tb, tc, td)
  {}

  lemma ChildIsNew(s: State, parent: nat, child: nat, plan: seq<ForkStep>)
    requires Enabled(s, Fork(parent, child, plan))
    ensures parent != child
  {}

  lemma PartsPlanned(s: State, k: RegKey, lo: nat, hi: nat, child: nat, plan: seq<ForkStep>)
    requires Tidy(s) && CutsShadow(s, k, lo, hi) && s.regions[k].source in s.refs
    requires Enabled(CutRegion(s, k, lo, hi), Fork(k.pid, child, plan))
    ensures k.first in Firsts(plan) && hi + 1 in Firsts(plan) && k.first != hi + 1
  {
    var s0, kh := CutRegion(s, k, lo, hi), RegKey(k.pid, hi + 1);
    assert k in s0.regions && kh in s0.regions;
    assert k.first in FirstsOf(s0.regions, k.pid) && kh.first in FirstsOf(s0.regions, k.pid);
  }

  // The memory of the objects, when those of the three regions have been freed.
  predicate FreesShadow(s: State, c0: RegKey, c1: RegKey, k1: RegKey, k2: RegKey, o: ObjId) {
    && c0 in s.regions && c1 in s.regions && k1 in s.regions && k2 in s.regions
    && var freed := Frees(Held(s), [s.regions[c0].source, s.regions[c1].source, s.regions[k1].source]);
    && freed.Some? && {o, s.regions[c0].source} <= freed.value.free
    && s.regions[k2].source in freed.value.links && s.regions[k2].source !in freed.value.free
    && freed.value.links[s.regions[k2].source].next == o
    && ChainOf(freed.value.pages, s.regions[c0].source) == Merge(ChainOf(s.store.pages, o), [])
  }

  lemma ThenFreesShadow(s: State, o: ObjId, k1: RegKey, k2: RegKey, child: nat, ta: ObjId, tb: ObjId, tc: ObjId,
                        td: ObjId)
    requires Tidy(s) && BothForked(s, o, k1, k2, child, ta, tb, tc, td) && k1.pid == k2.pid != child && k1 != k2
    ensures FreesShadow(s, RegKey(child, k2.first), RegKey(child, k1.first), k2, k1, o)
  {
    hide Tidy, OnlyUser, OwnOver, Frees, Merge;
    var c0, c1 := RegKey(child, k2.first), RegKey(child, k1.first);
    UserIn(s, k1, ta, o);
    UserIn(s, c1, tb, o);
    UserIn(s, k2, tc, o);
    UserIn(s, c0, td, o);
    OwnsIt(s, c1, tb, o);
    OwnsIt(s, k2, tc, o);
    OwnsIt(s, c0, td, o);
    UsersDiffer(s, k1, ta, c1, tb, o);
    UsersDiffer(s, k1, ta, k2, tc, o);
    UsersDiffer(s, k1, ta, c0, td, o);
    UsersDiffer(s, c1, tb, k2, tc, o);
    UsersDiffer(s, c1, tb, c0, td, o);
    UsersDiffer(s, k2, tc, c0, td, o);
    ThenFreed(Held(s), o, ta, tb, tc, td);
  }

  lemma OwnsIt(s: State, k: RegKey, x: ObjId, o: ObjId)
    requires Tidy(s) && IsShadow(s, o) && OnlyUser(s, k, x, o)
    ensures OwnOver(Held(s), x, o)
  {}

  lemma UsersDiffer(s: State, k: RegKey, x: ObjId, k': RegKey, x': ObjId, o: ObjId)
    requires OnlyUser(s, k, x, o) && OnlyUser(s, k', x', o) && k != k'
    ensures x != x'
  {}

  // ---------------------------------------------------------------- there always is such a fork

  // malloc's addresses for one region after the other.
  lemma {:induction false} PlanFor(firsts: set<nat>, used: set<ObjId>, done: set<nat>, n: nat)
    returns (plan: seq<ForkStep>)
    requires n > 0 && firsts !! done && forall o :: o in used ==> o < n
    ensures GoodPlan(used, done, plan) && Firsts(plan) == firsts
    decreases firsts
  {
    plan := [];
    if firsts != {} {
      var x :| x in firsts;
      var rest := PlanFor(firsts - {x}, used + {n, n + 1}, done + {x}, n + 2);
      plan := [ForkStep(x, n, n + 1)] + rest;
      assert plan[1..] == rest && firsts == {x} + (firsts - {x});
    }
  }

  lemma SomeFork(s: State, parent: nat) returns (child: nat, plan: seq<ForkStep>)
    ensures Enabled(s, Fork(parent, child, plan))
  {
    var pids := (set k | k in s.regions :: k.pid) + (set e | e in s.pt :: e.pid);
    var p := UpperBound(pids);
    var n := UpperBound(s.store.links.Keys);
    child := p + parent + 1;
    forall k | k in s.regions ensures k.pid != child { assert k.pid in pids; }
    forall e | e in s.pt ensures e.pid != child { assert e.pid in pids; }
    plan := PlanFor(FirstsOf(s.regions, parent), s.store.links.Keys, {}, n + 1);
  }

  // ---------------------------------------------------------------- safe cuts

  ghost predicate NeverPanics(s: State) {
    forall ls :: CanRun(s, ls) ==> Panic !in Run(s, ls).1
  }

  // A run that begins with an event that is possible.
  lemma RunFrom(s: State, l: Label, ls: seq<Label>)
    requires Stepable(s) && Enabled(s, l) && CanRun(Step(s, l).s, ls)
    ensures CanRun(s, [l] + ls) && Run(s, [l] + ls).1 == [Step(s, l).out] + Run(Step(s, l).s, ls).1
  {
    hide Ranked, Enabled, Step;
    assert ([l] + ls)[1..] == ls;
  }

  lemma LastPanics(s: State, k: RegKey) returns (l: Label)
    requires Stepable(s) && k in s.regions && Detach(s, k) == None
    ensures Enabled(s, l) && Step(s, l) == Result(s, Panic)
  {
    l := Unmap(k, s.regions[k].last);
  }

  lemma UnmapRuns(s: State, k: RegKey, ls: seq<Label>) returns (l: Label)
    requires Stepable(s) && k in s.regions && Detach(s, k).Some?
    requires CanRun(Detach(s, k).value, ls) && Panic in Run(Detach(s, k).value, ls).1
    ensures CanRun(s, [l] + ls) && Panic in Run(s, [l] + ls).1
  {
    hide Detach, CanRun, Run, Ranked;
    l := Unmap(k, s.regions[k].last);
    assert Enabled(s, l) && Step(s, l).s == Detach(s, k).value by { UnmapStepIs(s, k); }
    RunFrom(s, l, ls);
  }

  lemma UnmapStepIs(s: State, k: RegKey)
    requires Stepable(s) && k in s.regions && Detach(s, k).Some?
    ensures var l := Unmap(k, s.regions[k].last); Enabled(s, l) && Step(s, l).s == Detach(s, k).value
  {
    hide Detach;
  }

  lemma FailingRun(s: State, c0: RegKey, c1: RegKey, k: RegKey) returns (ls: seq<Label>)
    requires Fails(s, c0, c1, k)
    ensures CanRun(s, ls) && Panic in Run(s, ls).1
  {
    hide Detach, CanRun, Run, Ranked, Enabled, Step;
    var s1 := Detach(s, c0).value;
    var s2 := Detach(s1, c1).value;
    var l := LastPanics(s2, k);
    assert CanRun(s2, []) && Run(s2, []).1 == [] by { NoEvents(s2); }
    RunFrom(s2, l, []);
    var l1 := UnmapRuns(s1, c1, [l] + []);
    var l0 := UnmapRuns(s, c0, [l1] + ([l] + []));
    ls := [l0] + ([l1] + ([l] + []));
  }

  lemma NoEvents(s: State)
    ensures CanRun(s, []) && Run(s, []) == (s, [])
  {}

  // What a munmap may cut: it is safe, whatever happens later, exactly if it does not cut a region in two whose object
  // is a shadow.
  lemma CutIsSafe(s: State, a: Memory, k: RegKey, lo: nat, hi: nat)
    requires Good(s, a) && CanCut(s.regions, k, lo, hi)
    ensures s.regions[k].source in s.refs && s.regions[k].source in s.store.links
    ensures NeverPanics(CutRegion(s, k, lo, hi)) <==>
            !(InTwo(s.regions[k], lo, hi) && s.store.links[s.regions[k].source].kind == Shadow)
  {
    hide Good, CanRun, Run, CutRegion, Enabled, Fails, Tidy, FreesShadow;
    GoodIsStepable(s, a);
    assert s.regions[k].source in s.refs.Keys;
    if CutsShadow(s, k, lo, hi) {
      CutPanics(s, a, k, lo, hi);
    } else {
      CutStaysGood(s, a, k, lo, hi);
    }
  }

  lemma CutPanics(s: State, a: Memory, k: RegKey, lo: nat, hi: nat)
    requires Good(s, a) && CutsShadow(s, k, lo, hi) && s.regions[k].source in s.refs
    ensures !NeverPanics(CutRegion(s, k, lo, hi))
  {
    hide Good, CanRun, Run, CutRegion, Fails, Tidy, FreesShadow, ForkAll, Step, Enabled;
    var s0 := CutRegion(s, k, lo, hi);
    var child, plan := SomeFork(s0, k.pid);
    var c0, c1, k1, k2 := CutInTwoBreaks(s, a, k, lo, hi, child, plan);
    var s' := ForkAll(s0, k.pid, child, plan).value;
    var ls := FailingRun(s', c0, c1, k1);
    var l := Fork(k.pid, child, plan);
    GoodIsTidy(s, a);
    CutIsTidy(s, k, lo, hi);
    TidyIsStepable(s0);
    assert Step(s0, l) == Result(s', Quiet) by { ForkStepIs(s0, k.pid, child, plan); }
    RunFrom(s0, l, ls);
  }

  lemma ForkStepIs(s: State, parent: nat, child: nat, plan: seq<ForkStep>)
    requires Stepable(s) && Enabled(s, Fork(parent, child, plan)) && ForkAll(s, parent, child, plan).Some?
    ensures Step(s, Fork(parent, child, plan)) == Result(ForkAll(s, parent, child, plan).value, Quiet)
  {
    hide ForkAll, Ranked, Enabled;
  }

  lemma CutStaysGood(s: State, a: Memory, k: RegKey, lo: nat, hi: nat)
    requires Good(s, a) && CanCut(s.regions, k, lo, hi) && !CutsShadow(s, k, lo, hi)
    requires s.regions[k].source in s.store.links && s.regions[k].source in s.refs && s.refs.Keys == s.store.links.Keys
    ensures NeverPanics(CutRegion(s, k, lo, hi))
  {
    hide Good, CanRun, Run, CutRegion;
    var s0 := CutRegion(s, k, lo, hi);
    UnmapPartStep(s, a, k, lo, hi);
    forall ls | CanRun(s0, ls) ensures Panic !in Run(s0, ls).1 {
      RunRefinesFrom(s0, WithoutRange(a, k.pid, lo, hi), ls);
    }
  }
}
