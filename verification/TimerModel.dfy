/** kern/timer.c as values: the wakeup chain, which stores differences, and the independent timers it stands for. */
module TimerModel {
  const HZ := 1024

  // ---------------------------------------------------------------- independent timers

  // What goes off, and in which timer() call, counted from 1. Every timer has its own number.
  datatype Due = Due(what: nat, user: bool, due: int, id: nat)

  // A kernel function may arm timers when it runs.
  datatype Request = Request(what: nat, ticks: int)
  type Calls = map<nat, seq<Request>>

  function RequestsOf(calls: Calls, d: Due): seq<Request> {
    if !d.user && d.what in calls then calls[d.what] else []
  }

  // Kernel functions do not arm timers that go off at once.
  predicate Patient(calls: Calls) {
    forall f, r :: f in calls && r in calls[f] ==> r.ticks >= 1
  }

  // After those that go off no later.
  function InsertDue(view: seq<Due>, d: Due): seq<Due> {
    if view == [] then [d]
    else if d.due < view[0].due then [d] + view
    else [view[0]] + InsertDue(view[1..], d)
  }

  function Armed(view: seq<Due>, ds: seq<Due>): seq<Due>
    decreases |ds|
  {
    if ds == [] then view else Armed(InsertDue(view, ds[0]), ds[1..])
  }

  function Without(view: seq<Due>, what: nat): seq<Due> {
    if view == [] then []
    else if view[0].what == what then Without(view[1..], what)
    else [view[0]] + Without(view[1..], what)
  }

  function DueNow(view: seq<Due>, now: int): seq<Due> {
    if view == [] || view[0].due > now then [] else [view[0]] + DueNow(view[1..], now)
  }

  function Later(view: seq<Due>, now: int): seq<Due> {
    if view == [] || view[0].due > now then view else Later(view[1..], now)
  }

  function Numbered(rs: seq<Request>, now: int, id: nat): (ds: seq<Due>)
    ensures |ds| == |rs|
  {
    if rs == [] then [] else [Due(rs[0].what, false, now + rs[0].ticks, id)] + Numbered(rs[1..], now, id + 1)
  }

  // Timers that the functions of `fired` arm while they run in call number `now`.
  function Rearmed(fired: seq<Due>, calls: Calls, now: int, id: nat): seq<Due> {
    if fired == [] then []
    else
      var ds := Numbered(RequestsOf(calls, fired[0]), now, id);
      ds + Rearmed(fired[1..], calls, now, id + |ds|)
  }

  // clock: how many timer() calls there have been. nextId: how many timers.
  datatype Timers = Timers(entries: seq<Due>, clock: int, nextId: nat)

  function Arm(t: Timers, what: nat, user: bool, ticks: int): Timers {
    t.(entries := InsertDue(t.entries, Due(what, user, t.clock + 1 + ticks, t.nextId)), nextId := t.nextId + 1)
  }

  function Disarm(t: Timers, what: nat): Timers {
    t.(entries := Without(t.entries, what))
  }

  function Fired(t: Timers): seq<Due> { DueNow(t.entries, t.clock + 1) }

  function Tick(t: Timers, calls: Calls): Timers {
    var now := t.clock + 1;
    var ds := Rearmed(Fired(t), calls, now, t.nextId);
    Timers(Armed(Later(t.entries, now), ds), now, t.nextId + |ds|)
  }

  // ---------------------------------------------------------------- invariant

  predicate Before(d1: Due, d2: Due) { d1.due < d2.due || (d1.due == d2.due && d1.id < d2.id) }

  predicate Sorted(view: seq<Due>) {
    forall i, j :: 0 <= i < j < |view| ==> Before(view[i], view[j]) && view[i].id != view[j].id
  }

  predicate Pending(view: seq<Due>, clock: int, nextId: nat) {
    forall d :: d in view ==> d.due > clock && d.id < nextId
  }

  predicate Ok(t: Timers) { Sorted(t.entries) && Pending(t.entries, t.clock, t.nextId) }

  lemma {:induction false} InsertMembers(view: seq<Due>, d: Due)
    ensures |InsertDue(view, d)| == |view| + 1
    ensures forall x :: x in InsertDue(view, d) <==> x == d || x in view
  {
    if view != [] && d.due >= view[0].due {
      InsertMembers(view[1..], d);
      assert view == [view[0]] + view[1..];
    }
  }

  // Everything else keeps its place and its time.
  lemma {:induction false} InsertSorted(view: seq<Due>, d: Due)
    requires Sorted(view) && forall x :: x in view ==> x.id < d.id
    ensures Sorted(InsertDue(view, d))
  {
    if view != [] {
      if d.due >= view[0].due {
        InsertSorted(view[1..], d);
        InsertMembers(view[1..], d);
        var rest := InsertDue(view[1..], d);
        forall j | 0 <= j < |rest| ensures Before(view[0], rest[j]) && view[0].id != rest[j].id {
          assert rest[j] in rest;
          if rest[j] != d {
            var k :| 0 <= k < |view[1..]| && view[1..][k] == rest[j];
            assert view[k + 1] == rest[j];
          }
        }
      } else {
        assert forall j :: 0 <= j < |view| ==> view[j] in view;
      }
    }
  }

  lemma ArmOk(t: Timers, what: nat, user: bool, ticks: int)
    requires Ok(t) && ticks >= 0
    ensures Ok(Arm(t, what, user, ticks))
  {
    var d := Due(what, user, t.clock + 1 + ticks, t.nextId);
    InsertSorted(t.entries, d);
    InsertMembers(t.entries, d);
  }

  lemma {:induction false} WithoutMembers(view: seq<Due>, what: nat, x: Due)
    ensures x in Without(view, what) <==> x in view && x.what != what
  {
    if view != [] {
      WithoutMembers(view[1..], what, x);
      assert view == [view[0]] + view[1..];
    }
  }

  lemma {:induction false} WithoutSorted(view: seq<Due>, what: nat)
    requires Sorted(view)
    ensures Sorted(Without(view, what))
  {
    if view != [] {
      WithoutSorted(view[1..], what);
      var rest := Without(view[1..], what);
      forall j | 0 <= j < |rest| ensures Before(view[0], rest[j]) && view[0].id != rest[j].id {
        WithoutMembers(view[1..], what, rest[j]);
        var k :| 0 <= k < |view[1..]| && view[1..][k] == rest[j];
        assert view[k + 1] == rest[j];
      }
    }
  }

  lemma DisarmOk(t: Timers, what: nat)
    requires Ok(t)
    ensures Ok(Disarm(t, what))
  {
    WithoutSorted(t.entries, what);
    forall x | x in Without(t.entries, what) ensures x in t.entries { WithoutMembers(t.entries, what, x); }
  }

  lemma {:induction false} SplitIs(view: seq<Due>, now: int)
    ensures view == DueNow(view, now) + Later(view, now)
    ensures forall x :: x in DueNow(view, now) ==> x.due <= now
    ensures Later(view, now) != [] ==> Later(view, now)[0].due > now
  {
    if view != [] && view[0].due <= now {
      SplitIs(view[1..], now);
      assert view == [view[0]] + view[1..];
    }
  }

  // A chain splits into what goes off now and what goes off later.
  lemma Split(view: seq<Due>, now: int)
    requires Sorted(view)
    ensures Sorted(DueNow(view, now)) && Sorted(Later(view, now))
    ensures forall x :: x in DueNow(view, now) <==> x in view && x.due <= now
    ensures forall x :: x in Later(view, now) <==> x in view && x.due > now
  {
    SplitIs(view, now);
    SplitSorted(view, DueNow(view, now), Later(view, now));
    HeadIsFirst(Later(view, now), now);
  }

  lemma SplitSorted(view: seq<Due>, a: seq<Due>, b: seq<Due>)
    requires Sorted(view) && view == a + b
    ensures Sorted(a) && Sorted(b)
  {
    assert forall i :: 0 <= i < |b| ==> b[i] == view[|a| + i];
    assert forall i :: 0 <= i < |a| ==> a[i] == view[i];
  }

  lemma HeadIsFirst(b: seq<Due>, now: int)
    requires Sorted(b) && (b != [] ==> b[0].due > now)
    ensures forall x :: x in b ==> x.due > now
  {
    forall x | x in b ensures x.due > now {
      var i :| 0 <= i < |b| && b[i] == x;
      assert i == 0 || Before(b[0], b[i]);
    }
  }

  lemma {:induction false} NumberedAll(rs: seq<Request>, now: int, id: nat)
    requires forall r :: r in rs ==> r.ticks >= 1
    ensures forall i :: 0 <= i < |rs| ==> Numbered(rs, now, id)[i] == Due(rs[i].what, false, now + rs[i].ticks, id + i)
  {
    if rs != [] {
      assert rs[0] in rs;
      NumberedAll(rs[1..], now, id + 1);
    }
  }

  predicate FreshFrom(ds: seq<Due>, now: int, id: nat) {
    forall i :: 0 <= i < |ds| ==> ds[i].due > now && ds[i].id == id + i
  }

  lemma {:induction false} RearmedFresh(fired: seq<Due>, calls: Calls, now: int, id: nat)
    requires Patient(calls)
    ensures FreshFrom(Rearmed(fired, calls, now, id), now, id)
  {
    if fired != [] {
      var rs := RequestsOf(calls, fired[0]);
      NumberedAll(rs, now, id);
      RearmedFresh(fired[1..], calls, now, id + |rs|);
      assert forall i :: 0 <= i < |rs| ==> rs[i] in rs;
    }
  }

  lemma {:induction false} ArmedOk(view: seq<Due>, ds: seq<Due>, now: int, id: nat)
    requires Sorted(view) && Pending(view, now, id) && FreshFrom(ds, now, id)
    ensures Sorted(Armed(view, ds)) && Pending(Armed(view, ds), now, id + |ds|)
    ensures forall x :: x in Armed(view, ds) <==> x in view || x in ds
    decreases |ds|
  {
    if ds != [] {
      InsertSorted(view, ds[0]);
      InsertMembers(view, ds[0]);
      forall i | 0 <= i < |ds[1..]| ensures ds[1..][i].due > now && ds[1..][i].id == id + 1 + i {
        assert ds[1..][i] == ds[i + 1];
      }
      ArmedOk(InsertDue(view, ds[0]), ds[1..], now, id + 1);
      assert ds == [ds[0]] + ds[1..];
    }
  }

  // One timer() call: exactly the timers due now go off; all others stay; what is armed meanwhile goes off later.
  lemma TickOk(t: Timers, calls: Calls)
    requires Ok(t) && Patient(calls)
    ensures Ok(Tick(t, calls)) && Tick(t, calls).nextId >= t.nextId
    ensures forall x :: x in Fired(t) <==> x in t.entries && x.due == t.clock + 1
    ensures forall x :: x in Tick(t, calls).entries <==>
                          (x in t.entries && x.due > t.clock + 1)
                            || x in Rearmed(Fired(t), calls, t.clock + 1, t.nextId)
    ensures forall x :: x in Rearmed(Fired(t), calls, t.clock + 1, t.nextId) ==> x.id >= t.nextId && x.due > t.clock + 1
  {
    var now := t.clock + 1;
    var ds := Rearmed(Fired(t), calls, now, t.nextId);
    Split(t.entries, now);
    RearmedFresh(Fired(t), calls, now, t.nextId);
    ArmedOk(Later(t.entries, now), ds, now, t.nextId);
  }

  // ---------------------------------------------------------------- runs

  datatype Event = Call | Sleep(what: nat, user: bool, ticks: int) | Reset(what: nat, ticks: int)

  // Sleep: timer_sleep, or timer_ksleep without the reset flag. Reset: timer_ksleep with it.
  function Step(t: Timers, e: Event, calls: Calls): Timers {
    match e
    case Call => Tick(t, calls)
    case Sleep(what, user, ticks) => Arm(t, what, user, ticks)
    case Reset(what, ticks) => Arm(Disarm(t, what), what, false, ticks)
  }

  function After(t: Timers, es: seq<Event>, calls: Calls): Timers
    decreases |es|
  {
    if es == [] then t else After(Step(t, es[0], calls), es[1..], calls)
  }

  // What goes off in each timer() call of a run.
  function Alarms(t: Timers, es: seq<Event>, calls: Calls): seq<seq<Due>>
    decreases |es|
  {
    if es == [] then []
    else (if es[0].Call? then [Fired(t)] else []) + Alarms(Step(t, es[0], calls), es[1..], calls)
  }

  predicate NoNegative(es: seq<Event>) {
    forall e :: e in es && !e.Call? ==> e.ticks >= 0
  }

  predicate Undisturbed(es: seq<Event>, what: nat) {
    forall e :: e in es && e.Reset? ==> e.what != what
  }

  lemma StepOk(t: Timers, e: Event, calls: Calls)
    requires Ok(t) && Patient(calls) && (!e.Call? ==> e.ticks >= 0)
    ensures Ok(Step(t, e, calls)) && Step(t, e, calls).nextId >= t.nextId
    ensures Step(t, e, calls).clock == t.clock + if e.Call? then 1 else 0
  {
    match e
    case Call => TickOk(t, calls);
    case Sleep(what, user, ticks) => ArmOk(t, what, user, ticks);
    case Reset(what, ticks) =>
      DisarmOk(t, what);
      ArmOk(Disarm(t, what), what, false, ticks);
  }

  // A timer still in the chain after one event, or gone off in it.
  lemma StepKeeps(t: Timers, e: Event, calls: Calls, d: Due)
    requires Ok(t) && Patient(calls) && (!e.Call? ==> e.ticks >= 0) && d in t.entries
    requires e.Reset? ==> e.what != d.what
    ensures d in Step(t, e, calls).entries <==> !(e.Call? && d.due == t.clock + 1)
    ensures e.Call? ==> (d in Fired(t) <==> d.due == t.clock + 1)
  {
    match e
    case Call => TickOk(t, calls);
    case Sleep(what, user, ticks) =>
      InsertMembers(t.entries, Due(what, user, t.clock + 1 + ticks, t.nextId));
    case Reset(what, ticks) =>
      WithoutMembers(t.entries, what, d);
      InsertMembers(Without(t.entries, what), Due(what, false, t.clock + 1 + ticks, t.nextId));
  }

  // No timer bears the number of one that has gone.
  predicate Gone(t: Timers, d: Due) { d.id < t.nextId && d !in t.entries }

  lemma StepGone(t: Timers, e: Event, calls: Calls, d: Due)
    requires Ok(t) && Patient(calls) && (!e.Call? ==> e.ticks >= 0) && Gone(t, d)
    ensures Gone(Step(t, e, calls), d) && d !in Fired(t)
  {
    TickOk(t, calls);
    match e
    case Call =>
    case Sleep(what, user, ticks) =>
      InsertMembers(t.entries, Due(what, user, t.clock + 1 + ticks, t.nextId));
    case Reset(what, ticks) =>
      WithoutMembers(t.entries, what, d);
      InsertMembers(Without(t.entries, what), Due(what, false, t.clock + 1 + ticks, t.nextId));
  }

  lemma {:induction false} NeverAgain(t: Timers, es: seq<Event>, calls: Calls, d: Due)
    requires Ok(t) && Patient(calls) && NoNegative(es) && Gone(t, d)
    ensures forall k :: 0 <= k < |Alarms(t, es, calls)| ==> d !in Alarms(t, es, calls)[k]
    ensures d !in After(t, es, calls).entries
    decreases |es|
  {
    if es != [] {
      assert es[0] in es;
      StepOk(t, es[0], calls);
      StepGone(t, es[0], calls, d);
      NeverAgain(Step(t, es[0], calls), es[1..], calls, d);
    }
  }

  // A timer in the chain goes off in the call it is due in, and in no other, whatever else is armed, reset or
  // goes off in the meantime.
  lemma {:induction false} GoesOffWhenDue(t: Timers, es: seq<Event>, calls: Calls, d: Due)
    requires Ok(t) && Patient(calls) && NoNegative(es) && Undisturbed(es, d.what) && d in t.entries
    ensures var alarms := Alarms(t, es, calls);
      && (forall k :: 0 <= k < |alarms| ==> (d in alarms[k] <==> t.clock + 1 + k == d.due))
      && (d in After(t, es, calls).entries <==> t.clock + |alarms| < d.due)
    decreases |es|
  {
    if es != [] {
      var t', rest := Step(t, es[0], calls), es[1..];
      assert es[0] in es;
      StepOk(t, es[0], calls);
      StepKeeps(t, es[0], calls, d);
      if d in t'.entries {
        GoesOffWhenDue(t', rest, calls, d);
      } else {
        assert d.id < t.nextId;
        NeverAgain(t', rest, calls, d);
      }
    }
  }

  // A timer armed with T ticks goes off in the (T + 1)-th call from then on.
  lemma ArmedGoesOff(t: Timers, what: nat, user: bool, ticks: int, es: seq<Event>, calls: Calls)
    requires Ok(t) && Patient(calls) && ticks >= 0 && NoNegative(es) && Undisturbed(es, what)
    ensures
      var d := Due(what, user, t.clock + 1 + ticks, t.nextId);
      var alarms := Alarms(Arm(t, what, user, ticks), es, calls);
      forall k :: 0 <= k < |alarms| ==> (d in alarms[k] <==> k == ticks)
  {
    var d := Due(what, user, t.clock + 1 + ticks, t.nextId);
    ArmOk(t, what, user, ticks);
    InsertMembers(t.entries, d);
    GoesOffWhenDue(Arm(t, what, user, ticks), es, calls, d);
  }

  // Timers that go off in the same call do so in the order in which they were armed.
  lemma FirstInFirstOut(t: Timers, i: nat, j: nat)
    requires Ok(t) && i < j < |Fired(t)|
    ensures Fired(t)[i].id < Fired(t)[j].id
  {
    Split(t.entries, t.clock + 1);
    assert Fired(t)[i] in Fired(t) && Fired(t)[j] in Fired(t);
  }

  // A function that arms itself with T ticks, T >= 1, runs again exactly T calls later.
  lemma RunsEvery(t: Timers, calls: Calls, d: Due, ticks: int, es: seq<Event>) returns (d': Due)
    requires Ok(t) && Patient(calls) && d in Fired(t) && !d.user
    requires d.what in calls && Request(d.what, ticks) in calls[d.what]
    requires NoNegative(es) && Undisturbed(es, d.what)
    ensures d'.what == d.what && !d'.user
    ensures
      var alarms := Alarms(t, [Call] + es, calls);
      |alarms| > 0 && d in alarms[0] && forall k :: 0 <= k < |alarms| ==> (d' in alarms[k] <==> k == ticks)
  {
    TickOk(t, calls);
    d' := RearmedHas(Fired(t), calls, t.clock + 1, t.nextId, d, Request(d.what, ticks));
    var t' := Tick(t, calls);
    GoesOffWhenDue(t', es, calls, d');
    assert ([Call] + es)[1..] == es && ([Call] + es)[0] == Call;
    assert d' !in Fired(t) by { assert d'.due > t.clock + 1; }
  }

  lemma {:induction false} RearmedHas(fired: seq<Due>, calls: Calls, now: int, id: nat, d: Due, r: Request)
    returns (d': Due)
    requires Patient(calls) && d in fired && !d.user && d.what in calls && r in calls[d.what]
    ensures d' in Rearmed(fired, calls, now, id) && d'.what == r.what && !d'.user && d'.due == now + r.ticks
  {
    var ds := Numbered(RequestsOf(calls, fired[0]), now, id);
    if d == fired[0] {
      var i :| 0 <= i < |calls[d.what]| && calls[d.what][i] == r;
      NumberedAll(calls[d.what], now, id);
      d' := ds[i];
    } else {
      d' := RearmedHas(fired[1..], calls, now, id + |ds|, d, r);
    }
  }

  // ---------------------------------------------------------------- one timer() call, step by step

  lemma {:induction false} ArmedAppend(view: seq<Due>, a: seq<Due>, b: seq<Due>)
    ensures Armed(Armed(view, a), b) == Armed(view, a + b)
    decreases |a|
  {
    if a == [] {
      assert a + b == b;
    } else {
      assert (a + b)[1..] == a[1..] + b;
      ArmedAppend(InsertDue(view, a[0]), a[1..], b);
    }
  }

  // Arming later timers leaves the first one in its place.
  lemma {:induction false} ArmedHead(view: seq<Due>, ds: seq<Due>, now: int)
    requires forall d :: d in ds ==> d.due > now
    ensures view != [] && view[0].due <= now ==> Armed(view, ds) == [view[0]] + Armed(view[1..], ds)
    ensures view == [] || view[0].due > now ==> Armed(view, ds) == [] || Armed(view, ds)[0].due > now
    decreases |ds|
  {
    if ds != [] {
      assert ds[0] in ds;
      ArmedHead(InsertDue(view, ds[0]), ds[1..], now);
      if view != [] && view[0].due <= now { assert InsertDue(view, ds[0])[1..] == InsertDue(view[1..], ds[0]); }
    }
  }

  lemma RearmedCons(d: Due, rest: seq<Due>, calls: Calls, now: int, id: nat)
    ensures var ds := Numbered(RequestsOf(calls, d), now, id);
      Rearmed([d] + rest, calls, now, id) == ds + Rearmed(rest, calls, now, id + |ds|)
  {
    assert ([d] + rest)[1..] == rest;
  }

  lemma {:induction false} RearmedAppend(fired: seq<Due>, d: Due, calls: Calls, now: int, id: nat)
    ensures var r := Rearmed(fired, calls, now, id);
      Rearmed(fired + [d], calls, now, id) == r + Numbered(RequestsOf(calls, d), now, id + |r|)
  {
    hide Numbered, RequestsOf;
    if fired == [] {
      RearmedCons(d, [], calls, now, id);
      assert [] + [d] == [d] + [] && Rearmed([], calls, now, id) == [];
    } else {
      hide Rearmed;
      var n := |Numbered(RequestsOf(calls, fired[0]), now, id)|;
      assert fired + [d] == [fired[0]] + (fired[1..] + [d]) && fired == [fired[0]] + fired[1..];
      RearmedCons(fired[0], fired[1..] + [d], calls, now, id);
      RearmedCons(fired[0], fired[1..], calls, now, id);
      RearmedAppend(fired[1..], d, calls, now, id + n);
      var tail := Rearmed(fired[1..], calls, now, id + n);
      Associative(Numbered(RequestsOf(calls, fired[0]), now, id), tail,
                  Numbered(RequestsOf(calls, d), now, id + n + |tail|));
    }
  }

  lemma Associative(a: seq<Due>, b: seq<Due>, c: seq<Due>)
    ensures a + b + c == a + (b + c)
  {}

  lemma {:induction false} NumberedAppend(rs: seq<Request>, r: Request, now: int, id: nat)
    ensures Numbered(rs + [r], now, id) == Numbered(rs, now, id) + [Due(r.what, false, now + r.ticks, id + |rs|)]
  {
    if rs == [] {
      assert [r][1..] == [];
    } else {
      assert (rs + [r])[1..] == rs[1..] + [r];
      NumberedAppend(rs[1..], r, now, id + 1);
    }
  }

  // The timers due now are the first k, if the one after them is due later.
  lemma {:induction false} FirstAreDue(view: seq<Due>, now: int, k: nat)
    requires k <= |view| && (forall i :: 0 <= i < k ==> view[i].due <= now) && (k < |view| ==> view[k].due > now)
    ensures DueNow(view, now) == view[..k] && Later(view, now) == view[k..]
  {
    if k > 0 {
      FirstAreDue(view[1..], now, k - 1);
      assert view[..k] == [view[0]] + view[1..][..k - 1] && view[1..][k - 1..] == view[k..];
    }
  }

  // The state of timer() after k timers have gone off: what was armed meanwhile is in the chain with the others.
  ghost predicate Running(view: seq<Due>, calls: Calls, now: int, id: nat, k: nat, current: seq<Due>, nextId: nat) {
    && k <= |view| && (forall i :: 0 <= i < k ==> view[i].due <= now)
    && var r := Rearmed(view[..k], calls, now, id);
       current == Armed(view[k..], r) && nextId == id + |r|
  }

  lemma RunningStarts(view: seq<Due>, calls: Calls, now: int, id: nat)
    ensures Running(view, calls, now, id, 0, view, id)
  {
    assert view[..0] == [] && view[0..] == view;
  }

  lemma LaterThan(fired: seq<Due>, calls: Calls, now: int, id: nat)
    requires Patient(calls)
    ensures forall d :: d in Rearmed(fired, calls, now, id) ==> d.due > now
  {
    RearmedFresh(fired, calls, now, id);
  }

  // The timer at the head is due: it is the next one of those there at the start.
  lemma RunningHead(view: seq<Due>, calls: Calls, now: int, id: nat, k: nat, current: seq<Due>, nextId: nat)
    requires Patient(calls) && Running(view, calls, now, id, k, current, nextId) && current != []
    requires current[0].due <= now
    ensures k < |view| && current[0] == view[k]
    ensures
      var ds := Numbered(RequestsOf(calls, view[k]), now, nextId);
      Armed(current, ds) != [] && Armed(current, ds)[0] == view[k]
      && Running(view, calls, now, id, k + 1, Armed(current, ds)[1..], nextId + |ds|)
  {
    hide Rearmed, Armed, Numbered, RequestsOf, Patient;
    var r := Rearmed(view[..k], calls, now, id);
    LaterThan(view[..k], calls, now, id);
    ArmedHead(view[k..], r, now);
    var ds := Numbered(RequestsOf(calls, view[k]), now, nextId);
    RearmedAppend(view[..k], view[k], calls, now, id);
    assert view[..k] + [view[k]] == view[..k + 1];
    LaterThan(view[..k + 1], calls, now, id);
    ArmedAppend(view[k..], r, ds);
    ArmedHead(view[k..], r + ds, now);
    assert view[k..][1..] == view[k + 1..];
  }

  // Nothing is due any more: all that was due has gone off.
  lemma RunningEnds(t: Timers, calls: Calls, k: nat, current: seq<Due>, nextId: nat)
    requires Patient(calls) && Running(t.entries, calls, t.clock + 1, t.nextId, k, current, nextId)
    requires current == [] || current[0].due > t.clock + 1
    ensures Fired(t) == t.entries[..k] && Tick(t, calls) == Timers(current, t.clock + 1, nextId)
  {
    var now := t.clock + 1;
    var r := Rearmed(t.entries[..k], calls, now, t.nextId);
    LaterThan(t.entries[..k], calls, now, t.nextId);
    ArmedHead(t.entries[k..], r, now);
    FirstAreDue(t.entries, now, k);
  }

  // Why functions must be patient: one that arms itself with 0 ticks leaves as many timers due as there were, so
  // that timer() never ends.
  lemma ZeroTicksNeverEnd(view: seq<Due>, now: int, id: nat)
    requires view != [] && view[0].due <= now
    ensures
      var rest := InsertDue(view, Due(view[0].what, false, now, id))[1..];
      |DueNow(rest, now)| == |DueNow(view, now)| && rest != [] && rest[0].due <= now
  {
    var d := Due(view[0].what, false, now, id);
    DueNowInsert(view[1..], d, now);
    assert InsertDue(view, d)[1..] == InsertDue(view[1..], d);
  }

  lemma {:induction false} DueNowInsert(view: seq<Due>, d: Due, now: int)
    requires d.due == now
    ensures DueNow(InsertDue(view, d), now) == DueNow(view, now) + [d]
    ensures InsertDue(view, d)[0].due <= now
  {
    if view == [] || d.due < view[0].due {
      assert InsertDue(view, d)[1..] == view;
    } else {
      DueNowInsert(view[1..], d, now);
    }
  }
}
