/** When the loop of timer() ends, if kernel functions may also arm timers that are due at once. */
module TimerEnds {
  import opened TimerModel

  // ---------------------------------------------------------------- the loop

  // Functions may ask for 0 ticks, but not for less.
  predicate NonNegativeCalls(calls: Calls) {
    forall f, r :: f in calls && r in calls[f] ==> r.ticks >= 0
  }

  predicate HeadDue(view: seq<Due>, now: int) { view != [] && view[0].due <= now }

  // One round: the first timer goes off, its function arms others, and it is removed.
  function Round(view: seq<Due>, calls: Calls, now: int, id: nat): seq<Due> {
    var all := if view == [] then [] else Armed(view, Numbered(RequestsOf(calls, view[0]), now, id));
    if all == [] then [] else all[1..]
  }

  // The chain after at most n rounds.
  function Rounds(view: seq<Due>, calls: Calls, now: int, id: nat, n: nat): seq<Due>
    decreases n
  {
    if n == 0 || !HeadDue(view, now) then view
    else Rounds(Round(view, calls, now, id), calls, now, id + |RequestsOf(calls, view[0])|, n - 1)
  }

  ghost predicate LoopEnds(view: seq<Due>, calls: Calls, now: int, id: nat) {
    exists n: nat :: !HeadDue(Rounds(view, calls, now, id, n), now)
  }

  // ---------------------------------------------------------------- functions that arm each other at once

  // Function f arms g with 0 ticks.
  predicate AtOnce(calls: Calls, f: nat, g: nat) {
    f in calls && Request(g, 0) in calls[f]
  }

  predicate Chain(calls: Calls, path: seq<nat>) {
    forall i :: 0 < i < |path| ==> AtOnce(calls, path[i - 1], path[i])
  }

  predicate Repeats(path: seq<nat>) { exists i, j :: 0 <= i < j < |path| && path[i] == path[j] }

  // Some function that f arms at once, directly or through others, comes to arm itself again.
  ghost predicate ComesBack(calls: Calls, f: nat) {
    exists path: seq<nat> :: path != [] && path[0] == f && Chain(calls, path) && Repeats(path)
  }

  // No chain from f has n steps.
  ghost predicate Within(calls: Calls, f: nat, n: nat)
    decreases n
  {
    n > 0 && forall g :: AtOnce(calls, f, g) ==> Within(calls, g, n - 1)
  }

  lemma {:induction false} LongChain(calls: Calls, f: nat, n: nat) returns (path: seq<nat>)
    requires !Within(calls, f, n)
    ensures |path| == n + 1 && path[0] == f && Chain(calls, path)
    decreases n
  {
    path := [f];
    if n > 0 {
      var g :| AtOnce(calls, f, g) && !Within(calls, g, n - 1);
      var rest := LongChain(calls, g, n - 1);
      path := [f] + rest;
      forall i | 0 < i < |path| ensures AtOnce(calls, path[i - 1], path[i]) {
        assert path[i] == rest[i - 1] && (i > 1 ==> path[i - 1] == rest[i - 2]);
      }
    }
  }

  lemma {:induction false} Pigeonhole(path: seq<nat>, s: set<nat>)
    requires |path| > |s| && forall x :: x in path ==> x in s
    ensures Repeats(path)
    decreases |path|
  {
    assert path[0] in s;
    if path[0] in path[1..] {
      var j :| 0 <= j < |path[1..]| && path[1..][j] == path[0];
      assert path[0] == path[j + 1];
    } else {
      Pigeonhole(path[1..], s - {path[0]});
      var i, j :| 0 <= i < j < |path[1..]| && path[1..][i] == path[1..][j];
      assert path[i + 1] == path[j + 1];
    }
  }

  // Chains without repetition are short.
  lemma LongComesBack(calls: Calls, f: nat)
    requires !Within(calls, f, |calls.Keys| + 1)
    ensures ComesBack(calls, f)
  {
    var path := LongChain(calls, f, |calls.Keys| + 1);
    var shorter := path[..|path| - 1];
    forall x | x in shorter ensures x in calls.Keys {
      var i :| 0 <= i < |shorter| && shorter[i] == x;
      assert AtOnce(calls, path[i + 1 - 1], path[i + 1]);
    }
    Pigeonhole(shorter, calls.Keys);
    var i, j :| 0 <= i < j < |shorter| && shorter[i] == shorter[j];
    assert path[i] == path[j];
  }

  // A function that comes back arms one that does.
  lemma BackGoesOn(calls: Calls, f: nat) returns (g: nat)
    requires ComesBack(calls, f)
    ensures AtOnce(calls, f, g) && ComesBack(calls, g)
  {
    hide Chain;
    var path: seq<nat> :| path != [] && path[0] == f && Chain(calls, path) && Repeats(path);
    var i, j :| 0 <= i < j < |path| && path[i] == path[j];
    g := path[1];
    StepOf(calls, path);
    if i > 0 {
      assert path[1..][i - 1] == path[1..][j - 1] && path[1..][0] == g;
    } else {
      AroundAgain(calls, path, j);
      var rest := path[1..j + 1] + [g];
      assert rest[0] == g && rest[j] == g;
    }
  }

  lemma StepOf(calls: Calls, path: seq<nat>)
    requires |path| > 1 && Chain(calls, path)
    ensures AtOnce(calls, path[0], path[1]) && Chain(calls, path[1..])
  {
    assert AtOnce(calls, path[1 - 1], path[1]);
    forall k | 0 < k < |path[1..]| ensures AtOnce(calls, path[1..][k - 1], path[1..][k]) {
      assert AtOnce(calls, path[k + 1 - 1], path[k + 1]);
    }
  }

  lemma AroundAgain(calls: Calls, path: seq<nat>, j: nat)
    requires 0 < j < |path| && Chain(calls, path) && path[0] == path[j]
    ensures Chain(calls, path[1..j + 1] + [path[1]])
  {
    var rest := path[1..j + 1] + [path[1]];
    forall k | 0 < k < |rest| ensures AtOnce(calls, rest[k - 1], rest[k]) {
      if k < j {
        assert AtOnce(calls, path[k + 1 - 1], path[k + 1]);
      } else {
        assert AtOnce(calls, path[1 - 1], path[1]);
      }
    }
  }

  // ---------------------------------------------------------------- what is due

  // The timers that go off at once when they have been armed.
  function AtOnceOf(rs: seq<Request>, now: int, id: nat): seq<Due> {
    if rs == [] then []
    else
      (if rs[0].ticks <= 0 then [Due(rs[0].what, false, now + rs[0].ticks, id)] else [])
      + AtOnceOf(rs[1..], now, id + 1)
  }

  lemma {:induction false} DueNowLater(view: seq<Due>, d: Due, now: int)
    requires d.due > now
    ensures DueNow(InsertDue(view, d), now) == DueNow(view, now)
  {
    if view != [] && d.due >= view[0].due { DueNowLater(view[1..], d, now); }
  }

  lemma ArmedNone(view: seq<Due>, now: int, id: nat)
    ensures Armed(view, Numbered([], now, id)) == view
  {}

  lemma ArmedFirst(view: seq<Due>, rs: seq<Request>, now: int, id: nat)
    requires rs != []
    ensures var d := Due(rs[0].what, false, now + rs[0].ticks, id);
      Armed(view, Numbered(rs, now, id)) == Armed(InsertDue(view, d), Numbered(rs[1..], now, id + 1))
  {
    assert Numbered(rs, now, id)[1..] == Numbered(rs[1..], now, id + 1);
  }

  lemma {:induction false} DueNowArmed(view: seq<Due>, rs: seq<Request>, now: int, id: nat)
    requires forall r :: r in rs ==> r.ticks >= 0
    ensures DueNow(Armed(view, Numbered(rs, now, id)), now) == DueNow(view, now) + AtOnceOf(rs, now, id)
    decreases |rs|
  {
    hide Armed, DueNow, InsertDue, Numbered;
    if rs == [] {
      ArmedNone(view, now, id);
      assert DueNow(view, now) + [] == DueNow(view, now);
    } else {
      var d := Due(rs[0].what, false, now + rs[0].ticks, id);
      assert rs[0] in rs;
      DueNowArmed(InsertDue(view, d), rs[1..], now, id + 1);
      ArmedFirst(view, rs, now, id);
      var due, more := DueNow(view, now), AtOnceOf(rs[1..], now, id + 1);
      if rs[0].ticks > 0 {
        DueNowLater(view, d, now);
        assert AtOnceOf(rs, now, id) == [] + more == more;
      } else {
        DueNowInsert(view, d, now);
        assert due + [d] + more == due + ([d] + more);
      }
    }
  }

  lemma {:induction false} AtOnceIs(rs: seq<Request>, now: int, id: nat, g: nat)
    requires forall r :: r in rs ==> r.ticks >= 0
    ensures (forall d :: d in AtOnceOf(rs, now, id) ==> !d.user && Request(d.what, 0) in rs)
    ensures Request(g, 0) in rs ==> exists d :: d in AtOnceOf(rs, now, id) && !d.user && d.what == g
  {
    if rs != [] {
      assert rs[0] in rs;
      AtOnceIs(rs[1..], now, id + 1, g);
      if rs[0] == Request(g, 0) {
        assert Due(g, false, now, id) in AtOnceOf(rs, now, id);
      } else if Request(g, 0) in rs {
        var d :| d in AtOnceOf(rs[1..], now, id + 1) && !d.user && d.what == g;
        assert d in AtOnceOf(rs, now, id);
      }
    }
  }

  lemma HeadIsDue(view: seq<Due>, now: int)
    ensures HeadDue(view, now) <==> DueNow(view, now) != []
    ensures HeadDue(view, now) ==>
              view != [] && DueNow(view, now)[0] == view[0] && DueNow(view[1..], now) == DueNow(view, now)[1..]
  {}

  // A round takes the first of what is due, and adds what its function arms at once.
  lemma RoundDue(view: seq<Due>, calls: Calls, now: int, id: nat)
    requires HeadDue(view, now) && NonNegativeCalls(calls)
    ensures DueNow(Round(view, calls, now, id), now)
         == DueNow(view, now)[1..] + AtOnceOf(RequestsOf(calls, view[0]), now, id)
  {
    hide Armed, Numbered, DueNow, AtOnceOf, NonNegativeCalls;
    var rs := RequestsOf(calls, view[0]);
    var all := Armed(view, Numbered(rs, now, id));
    RequestsFit(calls, view[0]);
    DueNowArmed(view, rs, now, id);
    HeadIsDue(view, now);
    HeadIsDue(all, now);
    var due, more := DueNow(view, now), AtOnceOf(rs, now, id);
    assert (due + more)[1..] == due[1..] + more;
  }

  // ---------------------------------------------------------------- the exact condition

  // A timer that is due, and whose function comes back.
  ghost predicate Loops(calls: Calls, d: Due) { !d.user && ComesBack(calls, d.what) }

  // One such timer leads to another one.
  lemma {:induction false} NeverEnds(view: seq<Due>, calls: Calls, now: int, id: nat, d: Due, n: nat)
    requires NonNegativeCalls(calls) && d in DueNow(view, now) && Loops(calls, d)
    ensures HeadDue(Rounds(view, calls, now, id, n), now)
    decreases n
  {
    hide Round, Loops, NonNegativeCalls;
    assert HeadDue(view, now);
    if n > 0 {
      var d' := NextLoops(view, calls, now, id, d);
      NeverEnds(Round(view, calls, now, id), calls, now, id + |RequestsOf(calls, view[0])|, d', n - 1);
    }
  }

  lemma NextLoops(view: seq<Due>, calls: Calls, now: int, id: nat, d: Due) returns (d': Due)
    requires NonNegativeCalls(calls) && d in DueNow(view, now) && Loops(calls, d)
    ensures d' in DueNow(Round(view, calls, now, id), now) && Loops(calls, d')
  {
    hide Round, ComesBack, AtOnceOf, NonNegativeCalls;
    var due, rs := DueNow(view, now), RequestsOf(calls, view[0]);
    RoundDue(view, calls, now, id);
    assert due == [view[0]] + due[1..];
    if d in due[1..] {
      d' := d;
    } else {
      var g := BackGoesOn(calls, d.what);
      RequestsFit(calls, d);
      AtOnceIs(rs, now, id, g);
      d' :| d' in AtOnceOf(rs, now, id) && !d'.user && d'.what == g;
    }
  }

  lemma RequestsFit(calls: Calls, d: Due)
    requires NonNegativeCalls(calls)
    ensures forall r :: r in RequestsOf(calls, d) ==> r.ticks >= 0
    ensures forall g :: AtOnce(calls, d.what, g) && !d.user ==> Request(g, 0) in RequestsOf(calls, d)
    ensures forall g :: Request(g, 0) in RequestsOf(calls, d) ==> AtOnce(calls, d.what, g) && !d.user
  {}

  ghost predicate AllWithin(calls: Calls, ds: seq<Due>, n: nat) {
    forall d :: d in ds && !d.user ==> Within(calls, d.what, n)
  }

  // Of what is due, the first part is there from the start, and the rest has shorter chains: when the first part has
  // gone off, all chains are shorter.
  lemma {:induction false} Ends(view: seq<Due>, calls: Calls, now: int, id: nat, a: seq<Due>, b: seq<Due>, n: nat)
    returns (rounds: nat)
    requires NonNegativeCalls(calls) && DueNow(view, now) == a + b && n > 0
    requires AllWithin(calls, a, n) && AllWithin(calls, b, n - 1) && (n == 1 ==> b == [])
    ensures !HeadDue(Rounds(view, calls, now, id, rounds), now)
    decreases n, |a|
  {
    hide Round, DueNow, Within, AtOnceOf, RequestsOf, NonNegativeCalls, HeadDue;
    HeadIsDue(view, now);
    rounds := 0;
    if HeadDue(view, now) {
      if a == [] {
        assert a + b == b && b + [] == b;
        rounds := Ends(view, calls, now, id, b, [], n - 1);
      } else {
        RoundDue(view, calls, now, id);
        var rs := RequestsOf(calls, view[0]);
        var more := AtOnceOf(rs, now, id);
        assert (a + b)[0] == a[0] && a[0] in a;
        assert (a + b)[1..] + more == a[1..] + (b + more);
        ArmedWithin(calls, view[0], now, id, n);
        var rest := Ends(Round(view, calls, now, id), calls, now, id + |rs|, a[1..], b + more, n);
        rounds := rest + 1;
      }
    }
  }

  lemma FirstIsIn(ds: seq<Due>)
    ensures ds == [] || ds[0] in ds
  {}

  lemma ArmedWithin(calls: Calls, d: Due, now: int, id: nat, n: nat)
    requires NonNegativeCalls(calls) && n > 0 && (!d.user ==> Within(calls, d.what, n))
    ensures var more := AtOnceOf(RequestsOf(calls, d), now, id);
      AllWithin(calls, more, n - 1) && (n == 1 ==> more == [])
  {
    RequestsFit(calls, d);
    AtOnceIs(RequestsOf(calls, d), now, id, 0);
    var more := AtOnceOf(RequestsOf(calls, d), now, id);
    forall d' | d' in more ensures Within(calls, d'.what, n - 1) { assert AtOnce(calls, d.what, d'.what); }
    FirstIsIn(more);
  }

  // timer() returns exactly if no function that is due leads, through timers armed with 0 ticks, to one that arms
  // itself again.
  lemma LoopEndsExactly(view: seq<Due>, calls: Calls, now: int, id: nat)
    requires NonNegativeCalls(calls)
    ensures LoopEnds(view, calls, now, id) <==> forall d :: d in DueNow(view, now) ==> !Loops(calls, d)
  {
    if d :| d in DueNow(view, now) && Loops(calls, d) {
      forall n: nat ensures HeadDue(Rounds(view, calls, now, id, n), now) { NeverEnds(view, calls, now, id, d, n); }
    } else {
      var n := |calls.Keys| + 1;
      var due := DueNow(view, now);
      forall d | d in due && !d.user ensures Within(calls, d.what, n) {
        if !Within(calls, d.what, n) { LongComesBack(calls, d.what); }
      }
      assert due + [] == due;
      var rounds := Ends(view, calls, now, id, due, [], n);
    }
  }

  // Functions that arm nothing with 0 ticks are a case of it.
  lemma PatientEnds(view: seq<Due>, calls: Calls, now: int, id: nat)
    requires Patient(calls)
    ensures LoopEnds(view, calls, now, id)
  {
    forall d | d in DueNow(view, now) ensures !Loops(calls, d) {
      if Loops(calls, d) { var g := BackGoesOn(calls, d.what); }
    }
    LoopEndsExactly(view, calls, now, id);
  }
}
