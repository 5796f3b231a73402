/** kern/timer.c: the wakeup chain as a linked list that stores differences. */
module Timer {
  import opened TimerModel

  // An entry of the chain. ticks counts from the entry before it.
  datatype Item = Item(what: nat, user: bool, ticks: int, id: nat)

  // The timers that a chain stands for, if the next timer() call is number `base`.
  function View(items: seq<Item>, base: int): (view: seq<Due>)
    ensures |view| == |items|
  {
    if items == [] then []
    else
      var due := base + items[0].ticks;
      [Due(items[0].what, items[0].user, due, items[0].id)] + View(items[1..], due)
  }

  predicate NonNegative(items: seq<Item>) {
    forall i :: 0 <= i < |items| ==> items[i].ticks >= 0
  }

  // ---------------------------------------------------------------- insertion

  function InsertItem(items: seq<Item>, x: Item): seq<Item> {
    if items == [] then [x]
    else if x.ticks < items[0].ticks then [x, items[0].(ticks := items[0].ticks - x.ticks)] + items[1..]
    else [items[0]] + InsertItem(items[1..], x.(ticks := x.ticks - items[0].ticks))
  }

  // Insertion adds one timer and moves no other.
  lemma {:induction false} InsertView(items: seq<Item>, x: Item, base: int)
    ensures View(InsertItem(items, x), base) == InsertDue(View(items, base), Due(x.what, x.user, base + x.ticks, x.id))
  {
    if items != [] {
      if x.ticks < items[0].ticks {
        var y := items[0].(ticks := items[0].ticks - x.ticks);
        assert InsertItem(items, x)[1..] == [y] + items[1..];
        assert ([y] + items[1..])[1..] == items[1..];
      } else {
        assert InsertItem(items, x)[1..] == InsertItem(items[1..], x.(ticks := x.ticks - items[0].ticks));
        InsertView(items[1..], x.(ticks := x.ticks - items[0].ticks), base + items[0].ticks);
      }
    }
  }

  // Differences stay non-negative exactly if the new one is not negative.
  lemma {:induction false} InsertNonNegative(items: seq<Item>, x: Item)
    requires NonNegative(items)
    ensures NonNegative(InsertItem(items, x)) <==> x.ticks >= 0
  {
    if items == [] || x.ticks < items[0].ticks {
      assert InsertItem(items, x)[0] == x;
      assert forall i :: 2 <= i < |InsertItem(items, x)| ==> InsertItem(items, x)[i] == items[i - 1];
    } else {
      var rest := InsertItem(items[1..], x.(ticks := x.ticks - items[0].ticks));
      InsertNonNegative(items[1..], x.(ticks := x.ticks - items[0].ticks));
      assert InsertItem(items, x) == [items[0]] + rest && items[0].ticks >= 0;
    }
  }

  // ---------------------------------------------------------------- removal

  // What a removed entry counted is passed on to the entry after it.
  function RemoveItems(items: seq<Item>, what: nat): seq<Item>
    decreases |items|
  {
    if items == [] then []
    else if items[0].what != what then [items[0]] + RemoveItems(items[1..], what)
    else if |items| == 1 then []
    else RemoveItems([items[1].(ticks := items[1].ticks + items[0].ticks)] + items[2..], what)
  }

  lemma {:induction false} RemoveView(items: seq<Item>, what: nat, base: int)
    ensures View(RemoveItems(items, what), base) == Without(View(items, base), what)
    decreases |items|
  {
    if items != [] {
      if items[0].what != what {
        RemoveView(items[1..], what, base + items[0].ticks);
        assert RemoveItems(items, what)[1..] == RemoveItems(items[1..], what);
      } else if |items| > 1 {
        var rest := [items[1].(ticks := items[1].ticks + items[0].ticks)] + items[2..];
        RemoveView(rest, what, base);
        assert rest[1..] == items[1..][1..];
        assert View(rest, base) == View(items[1..], base + items[0].ticks);
      }
    }
  }

  lemma {:induction false} RemoveNonNegative(items: seq<Item>, what: nat)
    requires NonNegative(items)
    ensures NonNegative(RemoveItems(items, what))
    decreases |items|
  {
    if items != [] {
      if items[0].what != what { RemoveNonNegative(items[1..], what); }
      else if |items| > 1 {
        RemoveNonNegative([items[1].(ticks := items[1].ticks + items[0].ticks)] + items[2..], what);
      }
    }
  }

  // ---------------------------------------------------------------- going off

  // Dropping the first entry moves the others unless its count is exactly zero.
  lemma DropHead(items: seq<Item>, base: int)
    requires |items| > 1
    ensures View(items[1..], base) == View(items, base)[1..] <==> items[0].ticks == 0
  {
    assert View(items, base)[1..] == View(items[1..], base + items[0].ticks);
    assert View(items[1..], base)[0].due == base + items[1].ticks;
    assert View(items[1..], base + items[0].ticks)[0].due == base + items[0].ticks + items[1].ticks;
  }

  // A negative sleep puts off the others: the timer due in call number 4 now goes off in call number 6.
  lemma NegativeSleepDelays()
    ensures
      var items := InsertItem([Item(1, false, 3, 0)], Item(2, false, -2, 1));
      && View([Item(1, false, 3, 0)], 1) == [Due(1, false, 4, 0)]
      && items[0] == Item(2, false, -2, 1) && View(items[1..], 1) == [Due(1, false, 6, 0)]
  {
    var items := InsertItem([Item(1, false, 3, 0)], Item(2, false, -2, 1));
    assert items[1..] == [Item(1, false, 5, 0)];
    assert View([Item(1, false, 3, 0)][1..], 4) == [] && View(items[1..][1..], 6) == [];
  }

  lemma HeadDue(items: seq<Item>, now: int)
    requires items != []
    ensures View(items, now)[0] == Due(items[0].what, items[0].user, now + items[0].ticks, items[0].id)
    ensures items[0].ticks > 0 ==>
              View(items, now) == View([items[0].(ticks := items[0].ticks - 1)] + items[1..], now + 1)
  {
    assert ([items[0].(ticks := items[0].ticks - 1)] + items[1..])[1..] == items[1..];
  }

  // ---------------------------------------------------------------- ticks

  // tv_nsec counts in whole microseconds.
  function TicksOf(sec: int, nsec: nat): int { sec * HZ + nsec / 1000 * HZ / 1000000 }

  // The most ticks of 1/1024 s that fit into the time, cut to whole microseconds: less than two below the time itself.
  lemma TicksAccuracy(sec: int, nsec: nat)
    requires nsec < 1000000000
    ensures var us := sec * 1000000 + nsec / 1000;
      TicksOf(sec, nsec) * 1000000 <= 1024 * us < (TicksOf(sec, nsec) + 1) * 1000000
    ensures 0 <= HZ * (sec * 1000000000 + nsec) - TicksOf(sec, nsec) * 1000000000 < 2 * 1000000000
    ensures sec >= 0 ==> TicksOf(sec, nsec) >= 0
  {}

  class Entry {
    var next: Entry?
    const what: nat        // wakeup_addr
    const user: bool       // flags
    var ticks: int
    ghost const id: nat

    constructor (what: nat, user: bool, ticks: int, ghost id: nat)
      ensures this.what == what && this.user == user && this.ticks == ticks && this.id == id && next == null
    {
      this.what, this.user, this.ticks, this.id, next := what, user, ticks, id, null;
    }

    ghost function Value(): Item
      reads this
    {
      Item(what, user, ticks, id)
    }
  }

  class Chain {
    const calls: Calls             // what the kernel functions arm
    var first: Entry?              // first_twc
    ghost var spine: seq<Entry>
    ghost var items: seq<Item>     // the values of the entries
    ghost var clock: int
    ghost var nextId: nat

    constructor (calls: Calls)
      ensures this.calls == calls && Valid() && Timers() == TimerModel.Timers([], 0, 0) && spine == []
    {
      this.calls := calls;
      first, spine, items, clock, nextId := null, [], [], 0, 0;
    }

    ghost predicate Linked()
      reads this`first, this`spine, this`items, spine
    {
      first == (if spine == [] then null else spine[0]) && ValuesAre(spine, items) && NextsAre(spine)
    }

    ghost function Timers(): Timers
      reads this
    {
      TimerModel.Timers(View(items, clock + 1), clock, nextId)
    }

    ghost predicate Valid()
      reads this, spine
    {
      Linked() && NonNegative(items) && Ok(Timers())
    }

    // Walks to the place of the entry, whose count becomes the difference.
    method FindPlace(entry: Entry, ghost x: Item) returns (lastlink: Entry?, curlink: Entry?, ghost i: nat)
      requires Linked() && entry !in spine && entry.Value() == x
      modifies entry`ticks
      ensures i <= |spine| && entry.Value() == x.(ticks := entry.ticks)
      ensures curlink == if i < |spine| then spine[i] else null
      ensures lastlink == if i > 0 then spine[i - 1] else null
      ensures i < |items| == |spine| ==> entry.ticks < items[i].ticks
      ensures i == 0 ==> entry.ticks == x.ticks
      ensures i <= |items| && InsertItem(items, x) == items[..i] + InsertItem(items[i..], entry.Value())
    {
      hide InsertItem;
      lastlink, curlink := null, first;
      i := 0;
      while curlink != null && entry.ticks >= curlink.ticks
        invariant i <= |spine| == |items| && entry.Value() == x.(ticks := entry.ticks)
                  && (i == 0 ==> entry.Value() == x)
        invariant curlink == if i < |spine| then spine[i] else null
        invariant lastlink == if i > 0 then spine[i - 1] else null
        invariant InsertItem(items, x) == items[..i] + InsertItem(items[i..], entry.Value())
        decreases |spine| - i
      {
        InsertStep(items, i, entry.Value(), x);
        entry.ticks := entry.ticks - curlink.ticks;
        lastlink, curlink := curlink, curlink.next;
        i := i + 1;
      }
    }

    // Links the entry in between two others.
    method LinkIn(entry: Entry, lastlink: Entry?, curlink: Entry?, ghost i: nat)
      requires Linked() && entry !in spine && entry.next == null && i <= |spine|
      requires curlink == if i < |spine| then spine[i] else null
      requires lastlink == if i > 0 then spine[i - 1] else null
      modifies this`first, this`spine, this`items, entry`next, spine
      ensures Linked() && spine == old(spine)[..i] + [entry] + old(spine)[i..]
      ensures items == InsertedAt(old(items), i, entry.Value()) && (i > 0 ==> first == old(first))
    {
      if curlink != null {
        entry.next := curlink;
        curlink.ticks := curlink.ticks - entry.ticks;
      }
      if lastlink != null { lastlink.next := entry; } else { first := entry; }
      SplicedIn(spine, items, entry, i);
      items := InsertedAt(items, i, entry.Value());
      spine := spine[..i] + [entry] + spine[i..];
    }

    // timer_sleep__internal
    method Insert(what: nat, user: bool, ticks: int)
      requires Linked()
      modifies this`first, this`spine, this`items, this`nextId, spine
      ensures Linked() && fresh(set x | x in spine && x !in old(spine))
      ensures items == InsertItem(old(items), Item(what, user, ticks, old(nextId))) && nextId == old(nextId) + 1
      ensures old(items) != [] && ticks >= old(items)[0].ticks ==> first == old(first)
    {
      hide InsertItem, InsertedAt;
      ghost var x := Item(what, user, ticks, nextId);
      var entry := new Entry(what, user, ticks, nextId);
      nextId := nextId + 1;
      var lastlink, curlink;
      ghost var i;
      lastlink, curlink, i := FindPlace(entry, x);
      InsertEnd(items, i, entry.Value(), x);
      LinkIn(entry, lastlink, curlink, i);
    }

    // timer_sleep__internal, called with interrupts off between timer() calls. A negative time breaks the chain.
    method Sleep(what: nat, user: bool, sec: int, nsec: nat)
      requires Valid() && nsec < 1000000000
      modifies this`first, this`spine, this`items, this`nextId, spine
      ensures Linked() && fresh(set x | x in spine && x !in old(spine))
      ensures Timers() == Arm(old(Timers()), what, user, TicksOf(sec, nsec))
      ensures Valid() <==> TicksOf(sec, nsec) >= 0
    {
      hide Linked, Ok, NonNegative, View, InsertItem;
      var ticks := TicksOf(sec, nsec);
      ghost var x := Item(what, user, ticks, nextId);
      InsertView(items, x, clock + 1);
      InsertNonNegative(items, x);
      if ticks >= 0 { ArmOk(Timers(), what, user, ticks); }
      Insert(what, user, ticks);
    }

    // timer_ksleep
    method KSleep(what: nat, sec: int, nsec: nat, resetflag: bool)
      requires Valid() && nsec < 1000000000
      modifies this`first, this`spine, this`items, this`nextId, spine
      ensures Linked() && fresh(set x | x in spine && x !in old(spine))
      ensures
        var t := if resetflag then Disarm(old(Timers()), what) else old(Timers());
        Timers() == Arm(t, what, false, TicksOf(sec, nsec))
      ensures Valid() <==> TicksOf(sec, nsec) >= 0
    {
      hide Linked, Ok, NonNegative, View, RemoveItems, Arm;
      if resetflag {
        RemoveView(items, what, clock + 1);
        RemoveNonNegative(items, what);
        DisarmOk(Timers(), what);
        Remove(what);
      }
      Sleep(what, false, sec, nsec);
    }

    // Takes the entry at place i out of the chain; its count goes to the one after it.
    method UnlinkAt(lastlink: Entry?, curlink: Entry, ghost i: nat)
      requires Linked() && i < |spine| && curlink == spine[i]
      requires lastlink == if i > 0 then spine[i - 1] else null
      modifies this`first, this`spine, this`items, spine
      ensures Linked() && spine == old(spine)[..i] + old(spine)[i + 1..]
      ensures i < |old(items)| && items == RemovedAt(old(items), i)
      ensures curlink.next == old(curlink.next)
    {
      var nextlink := curlink.next;
      if nextlink != null { nextlink.ticks := nextlink.ticks + curlink.ticks; }
      if lastlink != null { lastlink.next := nextlink; } else { first := nextlink; }
      SplicedOut(spine, items, i);
      items := RemovedAt(items, i);
      spine := spine[..i] + spine[i + 1..];
    }

    // The reset of timer_ksleep: every entry for `what` goes.
    method Remove(what: nat)
      requires Linked()
      modifies this`first, this`spine, this`items, spine
      ensures Linked() && (forall j {:trigger spine[j]} :: 0 <= j < |spine| ==> spine[j] in old(spine))
      ensures items == RemoveItems(old(items), what)
    {
      hide RemoveItems, RemovedAt;
      var curlink, lastlink: Entry? := first, null;
      ghost var i := 0;
      while curlink != null
        invariant Linked() && 0 <= i <= |spine|
        invariant forall j {:trigger spine[j]} :: 0 <= j < |spine| ==> spine[j] in old(spine)
        invariant curlink == if i < |spine| then spine[i] else null
        invariant lastlink == if i > 0 then spine[i - 1] else null
        invariant RemoveItems(old(items), what) == items[..i] + RemoveItems(items[i..], what)
        decreases |spine| - i
      {
        var nextlink := curlink.next;
        RemoveStep(items, i, what);
        if curlink.what == what {
          UnlinkAt(lastlink, curlink, i);
        } else {
          lastlink := curlink;
          i := i + 1;
        }
        curlink := nextlink;
      }
      RemoveEnd(items, what);
    }

    // Runs one kernel function: it arms what it arms, while its own entry is still first in the chain.
    method RunFunction(what: nat)
      requires Linked() && NonNegative(items) && Patient(calls) && items != [] && items[0].ticks == 0
      modifies this`first, this`spine, this`items, this`nextId, spine
      ensures Linked() && NonNegative(items) && first == old(first) && items != [] && items[0].ticks == 0
      ensures fresh(set x | x in spine && x !in old(spine))
      ensures
        var ds := Numbered(RequestsOf(calls, Due(what, false, clock + 1, 0)), clock + 1, old(nextId));
        View(items, clock + 1) == Armed(View(old(items), clock + 1), ds) && nextId == old(nextId) + |ds|
    {
      hide Linked, Numbered, Armed, View, InsertItem, NonNegative;
      var rs := if what in calls then calls[what] else [];
      ghost var view, now := View(items, clock + 1), clock + 1;
      NumberedNone(view, now, nextId);
      assert rs[..0] == [];
      for j := 0 to |rs|
        invariant Linked() && NonNegative(items) && first == old(first) && items != [] && items[0].ticks == 0
        invariant fresh(set x | x in spine && x !in old(spine))
        invariant View(items, now) == Armed(view, Numbered(rs[..j], now, old(nextId))) && nextId == old(nextId) + j
      {
        ghost var x := Item(rs[j].what, false, rs[j].ticks, nextId);
        assert rs[..j + 1] == rs[..j] + [rs[j]];
        assert rs[j].ticks >= 1 by { assert rs[j] in calls[what]; }
        InsertView(items, x, now);
        InsertNonNegative(items, x);
        InsertHead(items, x);
        ArmedOneMore(view, rs[..j], rs[j], now, old(nextId));
        Insert(rs[j].what, false, rs[j].ticks);
      }
      assert rs[..|rs|] == rs;
    }

    // The first entry has gone off: it leaves the chain.
    method DropFirst()
      requires Linked() && spine != []
      modifies this`first, this`spine, this`items
      ensures Linked() && spine == old(spine)[1..] && |old(items)| > 0 && items == old(items)[1..]
    {
      first := first.next;
      spine, items := spine[1..], items[1..];
      assert forall i :: 0 <= i < |spine| ==> spine[i] == old(spine)[i + 1] && items[i] == old(items)[i + 1];
    }

    method CountDown()
      requires Linked() && spine != []
      modifies spine, this`items
      ensures Linked() && items == [old(items)[0].(ticks := old(items)[0].ticks - 1)] + old(items)[1..]
    {
      first.ticks := first.ticks - 1;
      items := [items[0].(ticks := items[0].ticks - 1)] + items[1..];
    }

    lemma FirstIs()
      requires Linked()
      ensures |items| == |spine| && (first == null <==> items == [])
      ensures first != null ==> spine != [] && first == spine[0] && first.Value() == items[0]
    {}

    // The wakeup part of timer(): what goes off, in order.
    method Tick() returns (alarms: seq<Alarm>)
      requires Valid() && Patient(calls)
      modifies this`first, this`spine, this`items, this`clock, this`nextId, spine
      ensures Valid() && fresh(set x | x in spine && x !in old(spine))
      ensures Timers() == TimerModel.Tick(old(Timers()), calls)
      ensures AlarmsOf(alarms, Fired(old(Timers())))
    {
      hide Linked, NonNegative, Ok, Running, View, TimerModel.Tick, AlarmsOf, Fired, Numbered, RequestsOf;
      ghost var t0: Timers, now, k: nat := Timers(), clock + 1, 0;
      alarms := [];
      RunningStarts(t0.entries, calls, now, t0.nextId);
      NoAlarms(t0.entries);
      FirstIs();
      while first != null && first.ticks <= 0
        invariant Linked() && NonNegative(items) && fresh(set x | x in spine && x !in old(spine))
        invariant |items| == |spine| && (first == null <==> items == [])
        invariant first != null ==> spine != [] && first == spine[0] && first.Value() == items[0]
        invariant Running(t0.entries, calls, now, t0.nextId, k, View(items, now), nextId)
        invariant k <= |t0.entries| && AlarmsOf(alarms, t0.entries[..k]) && clock + 1 == now
        decreases |t0.entries| - k
      {
        HeadDue(items, now);
        HeadNonNegative(items);
        RunningHead(t0.entries, calls, now, t0.nextId, k, View(items, now), nextId);
        AlarmsAppend(alarms, t0.entries, k);
        alarms := alarms + [Alarm(first.what, first.user)];
        SameRequests(calls, t0.entries[k], now);
        if first.user {
          NumberedNone(View(items, now), now, nextId);   // wakeup (twentry->wakeup_addr)
        } else {
          RunFunction(first.what);
        }
        FirstIs();
        ViewDrop(items, now);
        DropFirst();
        FirstIs();
        k := k + 1;
      }
      if first != null { HeadDue(items, now); }
      ViewEmpty(items, now);
      RunningEnds(t0, calls, k, View(items, now), nextId);
      TickOk(t0, calls);
      if first != null {
        RestNonNegative(items);
        CountDown();
      } else {
        ViewNothing(now);
      }
      clock := clock + 1;
    }
  }

  datatype Alarm = Alarm(what: nat, user: bool)

  predicate AlarmsOf(alarms: seq<Alarm>, fired: seq<Due>) {
    |alarms| == |fired| && forall i :: 0 <= i < |fired| ==> alarms[i] == Alarm(fired[i].what, fired[i].user)
  }

  lemma NoAlarms(view: seq<Due>)
    ensures AlarmsOf([], view[..0])
  {}

  lemma AlarmsAppend(alarms: seq<Alarm>, view: seq<Due>, k: nat)
    requires k < |view| && AlarmsOf(alarms, view[..k])
    ensures AlarmsOf(alarms + [Alarm(view[k].what, view[k].user)], view[..k + 1])
  {}

  lemma SameRequests(calls: Calls, d: Due, now: int)
    ensures d.user ==> RequestsOf(calls, d) == []
    ensures !d.user ==> RequestsOf(calls, Due(d.what, false, now, 0)) == RequestsOf(calls, d)
  {}

  lemma HeadNonNegative(items: seq<Item>)
    requires items != [] && NonNegative(items)
    ensures items[0].ticks >= 0
  {}

  lemma ViewDrop(items: seq<Item>, now: int)
    requires items != [] && NonNegative(items) && items[0].ticks == 0
    ensures View(items, now) != [] && View(items[1..], now) == View(items, now)[1..] && NonNegative(items[1..])
  {}

  lemma ViewEmpty(items: seq<Item>, now: int)
    ensures View(items, now) == [] <==> items == []
  {}

  lemma ViewNothing(now: int)
    ensures View([], now) == View([], now + 1) == []
  {}

  lemma RestNonNegative(items: seq<Item>)
    requires items != [] && NonNegative(items) && items[0].ticks > 0
    ensures NonNegative([items[0].(ticks := items[0].ticks - 1)] + items[1..])
  {}

  // y put in at place i, its count taken off that of the entry after it.
  function InsertedAt(items: seq<Item>, i: nat, y: Item): seq<Item>
    requires i <= |items|
  {
    items[..i] + [y] + if i == |items| then [] else [items[i].(ticks := items[i].ticks - y.ticks)] + items[i + 1..]
  }

  // Each entry has its value, and leads to the next one.
  ghost predicate ValuesAre(spine: seq<Entry>, items: seq<Item>)
    reads spine
  {
    |items| == |spine|
    && forall i {:trigger items[i]} {:trigger spine[i].Value()} :: 0 <= i < |spine| ==> spine[i].Value() == items[i]
  }

  ghost predicate NextsAre(spine: seq<Entry>)
    reads spine
  {
    && (forall i {:trigger spine[i].next} :: 0 <= i < |spine| ==>
          spine[i].next == if i + 1 < |spine| then spine[i + 1] else null)
    && (forall i, j :: 0 <= i < j < |spine| ==> spine[i] != spine[j])
  }

  // An entry linked in at place i, and the difference of the next one made smaller.
  lemma SplicedIn(spine: seq<Entry>, items: seq<Item>, entry: Entry, i: nat)
    requires |items| == |spine| && i <= |spine| && entry !in spine
    requires forall j :: 0 <= j < |spine| ==>
               spine[j].Value() == if j == i then items[j].(ticks := items[j].ticks - entry.ticks) else items[j]
    requires forall j {:trigger spine[j].next} :: 0 <= j < |spine| ==>
               spine[j].next == if j + 1 == i then entry else if j + 1 < |spine| then spine[j + 1] else null
    requires forall j, k :: 0 <= j < k < |spine| ==> spine[j] != spine[k]
    requires entry.next == if i < |spine| then spine[i] else null
    ensures ValuesAre(spine[..i] + [entry] + spine[i..], InsertedAt(items, i, entry.Value()))
    ensures NextsAre(spine[..i] + [entry] + spine[i..])
  {
    SplicedValues(spine, items, entry, i);
    var s := spine[..i] + [entry] + spine[i..];
    assert forall j :: 0 <= j < |s| ==> s[j] == if j < i then spine[j] else if j == i then entry else spine[j - 1];
    forall j {:trigger s[j].next} | 0 <= j < |s| ensures s[j].next == if j + 1 < |s| then s[j + 1] else null {
      if j > i { assert spine[j - 1].next == s[j].next; } else if j < i { assert spine[j].next == s[j].next; }
    }
  }

  lemma SplicedValues(spine: seq<Entry>, items: seq<Item>, entry: Entry, i: nat)
    requires |items| == |spine| && i <= |spine|
    requires forall j :: 0 <= j < |spine| ==>
               spine[j].Value() == if j == i then items[j].(ticks := items[j].ticks - entry.ticks) else items[j]
    ensures ValuesAre(spine[..i] + [entry] + spine[i..], InsertedAt(items, i, entry.Value()))
  {
    var s := spine[..i] + [entry] + spine[i..];
    forall j | 0 <= j < |s| ensures s[j].Value() == InsertedAt(items, i, entry.Value())[j] {
      if j > i { assert s[j] == spine[j - 1]; }
    }
  }

  // The entry at place i unlinked, and its difference added to that of the next one.
  lemma SplicedOut(spine: seq<Entry>, items: seq<Item>, i: nat)
    requires |items| == |spine| && i < |spine|
    requires forall j :: 0 <= j < |spine| && j != i ==>
               spine[j].Value() == if j == i + 1 then items[j].(ticks := items[j].ticks + items[i].ticks) else items[j]
    requires forall j {:trigger spine[j].next} :: 0 <= j < |spine| && j != i ==>
               spine[j].next == var k := if j + 1 == i then j + 2 else j + 1; if k < |spine| then spine[k] else null
    requires forall j, k :: 0 <= j < k < |spine| ==> spine[j] != spine[k]
    ensures ValuesAre(spine[..i] + spine[i + 1..], RemovedAt(items, i)) && NextsAre(spine[..i] + spine[i + 1..])
  {
    var s := spine[..i] + spine[i + 1..];
    assert forall j :: 0 <= j < |s| ==> s[j] == if j < i then spine[j] else spine[j + 1];
    forall j | 0 <= j < |s| ensures s[j].Value() == RemovedAt(items, i)[j] {
      if j >= i { assert s[j] == spine[j + 1]; }
    }
    forall j {:trigger s[j].next} | 0 <= j < |s| ensures s[j].next == if j + 1 < |s| then s[j + 1] else null {
      if j >= i { assert s[j] == spine[j + 1] && spine[j + 1].next == s[j].next; }
      if j < i { assert s[j] == spine[j] && spine[j].next == s[j].next; }
    }
  }

  lemma InsertStep(items: seq<Item>, i: nat, y: Item, x: Item)
    requires i < |items| && y.ticks >= items[i].ticks
    requires InsertItem(items, x) == items[..i] + InsertItem(items[i..], y)
    ensures InsertItem(items, x) == items[..i + 1] + InsertItem(items[i + 1..], y.(ticks := y.ticks - items[i].ticks))
  {
    assert items[i..][1..] == items[i + 1..];
    assert items[..i + 1] == items[..i] + [items[i]];
  }

  lemma InsertEnd(items: seq<Item>, i: nat, y: Item, x: Item)
    requires i <= |items| && (i < |items| ==> y.ticks < items[i].ticks)
    requires InsertItem(items, x) == items[..i] + InsertItem(items[i..], y)
    ensures InsertItem(items, x) == InsertedAt(items, i, y)
  {
    if i < |items| { assert items[i..][1..] == items[i + 1..]; }
  }

  function RemovedAt(items: seq<Item>, i: nat): seq<Item>
    requires i < |items|
  {
    items[..i] + if i + 1 == |items| then []
                 else [items[i + 1].(ticks := items[i + 1].ticks + items[i].ticks)] + items[i + 2..]
  }

  lemma RemoveStep(items: seq<Item>, i: nat, what: nat)
    requires i < |items|
    ensures
      if items[i].what == what then
        && i <= |RemovedAt(items, i)| && RemovedAt(items, i)[..i] == items[..i]
        && RemoveItems(RemovedAt(items, i)[i..], what) == RemoveItems(items[i..], what)
      else items[..i] + RemoveItems(items[i..], what) == items[..i + 1] + RemoveItems(items[i + 1..], what)
  {
    if items[i].what == what {
      assert RemovedAt(items, i)[i..] ==
             if i + 1 == |items| then []
             else [items[i + 1].(ticks := items[i + 1].ticks + items[i].ticks)] + items[i + 2..];
      assert i + 1 < |items| ==> items[i..][2..] == items[i + 2..];
    } else {
      assert items[i..][1..] == items[i + 1..];
      assert items[..i + 1] == items[..i] + [items[i]];
    }
  }

  lemma RemoveEnd(items: seq<Item>, what: nat)
    ensures items[..|items|] + RemoveItems(items[|items|..], what) == items
  {
    assert items[|items|..] == [] && items[..|items|] == items;
  }

  lemma NumberedNone(view: seq<Due>, now: int, id: nat)
    ensures Armed(view, Numbered([], now, id)) == view
  {}

  lemma InsertHead(items: seq<Item>, x: Item)
    requires items != [] && x.ticks >= items[0].ticks
    ensures InsertItem(items, x) != [] && InsertItem(items, x)[0] == items[0]
  {}

  lemma ArmedOneMore(view: seq<Due>, rs: seq<Request>, r: Request, now: int, id: nat)
    ensures Armed(view, Numbered(rs + [r], now, id)) ==
            InsertDue(Armed(view, Numbered(rs, now, id)), Due(r.what, false, now + r.ticks, id + |rs|))
  {
    var d := Due(r.what, false, now + r.ticks, id + |rs|);
    NumberedAppend(rs, r, now, id);
    ArmedAppend(view, Numbered(rs, now, id), [d]);
    assert [d][1..] == [];
  }
}
