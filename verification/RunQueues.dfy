/** kern/proc.c: the run queue and the sleep queue, two rings of processes linked in both directions. */
module RunQueues {

  // ---------------------------------------------------------------- queues as sequences

  // Who stays asleep, and who is moved, in the order of the sleep queue.
  function Stay<T(==)>(s: seq<T>, awake: set<T>): seq<T> {
    if s == [] then [] else Stay(s[..|s| - 1], awake) + if s[|s| - 1] in awake then [] else [s[|s| - 1]]
  }

  function Moved<T(==)>(s: seq<T>, awake: set<T>): seq<T> {
    if s == [] then [] else Moved(s[..|s| - 1], awake) + if s[|s| - 1] in awake then [s[|s| - 1]] else []
  }

  // Right behind the head.
  function AddBehind<T>(run: seq<T>, p: T): seq<T> {
    if run == [] then [p] else [run[0], p] + run[1..]
  }

  function AddAll<T>(run: seq<T>, ps: seq<T>): seq<T> {
    if ps == [] then run else AddBehind(AddAll(run, ps[..|ps| - 1]), ps[|ps| - 1])
  }

  // Place after the last one moved, 0 if none is.
  function Resting<T(==)>(s: seq<T>, awake: set<T>): (b: nat)
    ensures b <= |s|
  {
    if s == [] then 0 else if s[|s| - 1] in awake then |s| else Resting(s[..|s| - 1], awake)
  }

  // The sleep queue after a wakeup begins behind the last process that was moved.
  function Asleep<T(==)>(s: seq<T>, awake: set<T>): seq<T> {
    var b := Resting(s, awake);
    s[b..] + Stay(s[..b], awake)
  }

  function Turned<T>(s: seq<T>): seq<T> { if s == [] then [] else s[1..] + [s[0]] }

  lemma {:induction false} StayMembers<T>(s: seq<T>, awake: set<T>, p: T)
    ensures p in Stay(s, awake) <==> p in s && p !in awake
    ensures p in Moved(s, awake) <==> p in s && p in awake
  {
    if s != [] {
      StayMembers(s[..|s| - 1], awake, p);
      assert s == s[..|s| - 1] + [s[|s| - 1]];
    }
  }

  lemma {:induction false} AddAllMembers<T>(run: seq<T>, ps: seq<T>, p: T)
    ensures p in AddAll(run, ps) <==> p in run || p in ps
    ensures run != [] ==> AddAll(run, ps) != [] && AddAll(run, ps)[0] == run[0]
    ensures |AddAll(run, ps)| == |run| + |ps|
  {
    if ps != [] {
      var rest := AddAll(run, ps[..|ps| - 1]);
      AddAllMembers(run, ps[..|ps| - 1], p);
      assert ps == ps[..|ps| - 1] + [ps[|ps| - 1]];
      AddBehindMembers(rest, ps[|ps| - 1], p);
    }
  }

  lemma AddBehindMembers<T>(run: seq<T>, p: T, q: T)
    ensures q in AddBehind(run, p) <==> q in run || q == p
    ensures run != [] ==> AddBehind(run, p)[0] == run[0]
    ensures |AddBehind(run, p)| == |run| + 1 && AddBehind(run, p) != []
  {
    if run != [] { assert run == [run[0]] + run[1..]; }
  }

  lemma {:induction false} StayAll<T>(s: seq<T>, awake: set<T>, b: nat)
    requires b <= |s| && forall i :: b <= i < |s| ==> s[i] !in awake
    ensures Stay(s, awake) == Stay(s[..b], awake) + s[b..]
  {
    if b < |s| {
      StayAll(s[..|s| - 1], awake, b);
      assert s[..|s| - 1][..b] == s[..b] && s[..|s| - 1][b..] + [s[|s| - 1]] == s[b..];
    } else {
      assert s[..b] == s && s[b..] == [];
    }
  }

  lemma {:induction false} RestingIs<T>(s: seq<T>, awake: set<T>)
    ensures forall i :: Resting(s, awake) <= i < |s| ==> s[i] !in awake
    ensures Resting(s, awake) > 0 ==> s[Resting(s, awake) - 1] in awake
  {
    if s != [] { RestingIs(s[..|s| - 1], awake); }
  }

  // Who sleeps after a wakeup: exactly those not woken, and nobody twice.
  lemma AsleepMembers<T>(s: seq<T>, awake: set<T>, p: T)
    ensures p in Asleep(s, awake) <==> p in s && p !in awake
    ensures |Asleep(s, awake)| + |Moved(s, awake)| == |s|
  {
    var b := Resting(s, awake);
    RestingIs(s, awake);
    StayAll(s, awake, b);
    StayMembers(s, awake, p);
    StayMembers(s[..b], awake, p);
    assert p in s[b..] ==> p in s;
    Lengths(s, awake);
  }

  lemma {:induction false} Lengths<T>(s: seq<T>, awake: set<T>)
    ensures |Stay(s, awake)| + |Moved(s, awake)| == |s|
  {
    if s != [] { Lengths(s[..|s| - 1], awake); }
  }

  // ---------------------------------------------------------------- who is where after a wakeup

  // The run queue after a wakeup: the old head, the woken, of whom those that were last in the sleep queue come first,
  // and the others that could run before. If nobody could, the first one woken is the head.
  predicate RunAfter<T(==)>(run: seq<T>, slp: seq<T>, awake: set<T>, run': seq<T>) {
    && |run'| >= |run|
    && var n, first := |run'| - |run|, if run == [] then 0 else 1;
       && run'[..first] == run[..first] && run'[first + n..] == run[first..]
       && (forall i :: 0 <= i < |slp| ==> (slp[i] in awake <==> slp[i] in run'[first..first + n]))
       && (forall m :: first <= m < first + n ==> run'[m] in slp)
       && (forall m, l, i, j :: first <= m < l < first + n && 0 <= i < |slp| && 0 <= j < |slp| ==>
                                  (run'[m] == slp[i] && run'[l] == slp[j] ==> if m == 0 then i < j else j < i))
  }

  // The sleep queue after it: who slept behind the last one woken, then who slept before that one, in the same order.
  predicate SleepAfter<T(==)>(slp: seq<T>, awake: set<T>, slp': seq<T>) {
    exists b :: 0 <= b <= |slp| && BeginsAt(slp, awake, slp', b)
  }

  predicate BeginsAt<T(==)>(slp: seq<T>, awake: set<T>, slp': seq<T>, b: nat)
    requires b <= |slp|
  {
    var n := |slp| - b;
    && (b > 0 ==> slp[b - 1] in awake) && n <= |slp'| && slp'[..n] == slp[b..]
    && (forall i :: 0 <= i < |slp| ==> (slp[i] in awake <==> slp[i] !in slp'))
    && (forall m :: 0 <= m < |slp'| ==> slp'[m] in slp)
    && (forall m, i :: n <= m < |slp'| && 0 <= i < |slp| && slp'[m] == slp[i] ==> i < b)
    && InOrder(slp'[n..], slp)
  }

  // Of any two of them, the one that comes first does so in s too.
  predicate InOrder<T(==)>(part: seq<T>, s: seq<T>) {
    forall m, l, i, j :: 0 <= m < l < |part| && 0 <= i < |s| && 0 <= j < |s| ==>
                           (part[m] == s[i] && part[l] == s[j] ==> i < j)
  }

  predicate NoTwins<T(==)>(s: seq<T>) { forall i, j :: 0 <= i < j < |s| ==> s[i] != s[j] }

  lemma InOrderMore<T>(part: seq<T>, s: seq<T>, x: T)
    requires InOrder(part, s) && NoTwins(s + [x]) && forall m :: 0 <= m < |part| ==> part[m] in s
    ensures InOrder(part, s + [x]) && InOrder(part + [x], s + [x])
  {
    var s', part' := s + [x], part + [x];
    forall m, l, i, j | 0 <= m < l < |part'| && 0 <= i < |s'| && 0 <= j < |s'| && part'[m] == s'[i] && part'[l] == s'[j]
      ensures i < j
    {
      var i0 :| 0 <= i0 < |s| && s[i0] == part[m];
      assert s'[i0] == s'[i];
      if l < |part| {
        var j0 :| 0 <= j0 < |s| && s[j0] == part[l];
        assert s'[j0] == s'[j];
      } else {
        assert s'[|s|] == s'[j];
      }
    }
    forall m, l, i, j | 0 <= m < l < |part| && 0 <= i < |s'| && 0 <= j < |s'| && part[m] == s'[i] && part[l] == s'[j]
      ensures i < j
    {
      assert part'[m] == part[m] && part'[l] == part[l];
    }
  }

  lemma {:induction false} PartsInOrder<T>(s: seq<T>, awake: set<T>)
    requires NoTwins(s)
    ensures InOrder(Moved(s, awake), s) && InOrder(Stay(s, awake), s)
  {
    if s != [] {
      var rest, x := s[..|s| - 1], s[|s| - 1];
      assert s == rest + [x];
      PartsInOrder(rest, awake);
      PartsWithin(rest, awake);
      InOrderMore(Moved(rest, awake), rest, x);
      InOrderMore(Stay(rest, awake), rest, x);
    }
  }

  lemma PartsWithin<T>(s: seq<T>, awake: set<T>)
    ensures forall m :: 0 <= m < |Moved(s, awake)| ==> Moved(s, awake)[m] in s && Moved(s, awake)[m] in awake
    ensures forall m :: 0 <= m < |Stay(s, awake)| ==> Stay(s, awake)[m] in s && Stay(s, awake)[m] !in awake
    ensures forall i :: 0 <= i < |s| ==> (s[i] in awake <==> s[i] in Moved(s, awake))
    ensures forall i :: 0 <= i < |s| ==> (s[i] in awake <==> s[i] !in Stay(s, awake))
  {
    forall m | 0 <= m < |Moved(s, awake)| ensures Moved(s, awake)[m] in s && Moved(s, awake)[m] in awake {
      StayMembers(s, awake, Moved(s, awake)[m]);
    }
    forall m | 0 <= m < |Stay(s, awake)| ensures Stay(s, awake)[m] in s && Stay(s, awake)[m] !in awake {
      StayMembers(s, awake, Stay(s, awake)[m]);
    }
    forall i | 0 <= i < |s|
      ensures (s[i] in awake <==> s[i] in Moved(s, awake)) && (s[i] in awake <==> s[i] !in Stay(s, awake))
    {
      StayMembers(s, awake, s[i]);
    }
  }

  // Those added come behind the head, the last one first.
  lemma {:induction false} AddAllPlaces<T>(run: seq<T>, ps: seq<T>)
    ensures
      var run', n, first := AddAll(run, ps), |ps|, if run == [] then 0 else 1;
      && Added(run, ps, run') && |run'| == |run| + n
      && run'[..first] == run[..first] && run'[first + n..] == run[first..]
  {
    if ps != [] {
      var n := |ps| - 1;
      AddAllPlaces(run, ps[..n]);
      var run1 := AddAll(run, ps[..n]);
      assert AddAll(run, ps) == AddBehind(run1, ps[n]);
      assert run1 != [] ==> AddBehind(run1, ps[n]) == run1[..1] + [ps[n]] + run1[1..];
    }
  }

  lemma WokenRun<T>(run: seq<T>, slp: seq<T>, awake: set<T>)
    requires NoTwins(slp)
    ensures RunAfter(run, slp, awake, AddAll(run, Moved(slp, awake)))
  {
    hide AddAll, Moved, InOrder, Added, NoTwins;
    var ps := Moved(slp, awake);
    AddAllPlaces(run, ps);
    PartsWithin(slp, awake);
    PartsInOrder(slp, awake);
    AddedAre(run, ps, AddAll(run, ps));
    AddedInOrder(run, ps, AddAll(run, ps), slp);
  }

  predicate Added<T(==)>(run: seq<T>, ps: seq<T>, run': seq<T>) {
    var n, first := |ps|, if run == [] then 0 else 1;
    && |run'| == |run| + n && (forall m :: 1 <= m < first + n ==> run'[m] == ps[n - m])
    && (run == [] && n > 0 ==> run'[0] == ps[0])
  }

  lemma AddedAre<T>(run: seq<T>, ps: seq<T>, run': seq<T>)
    requires Added(run, ps, run')
    ensures var first := if run == [] then 0 else 1;
      && (forall x :: x in run'[first..first + |ps|] <==> x in ps)
      && (forall m :: first <= m < first + |ps| ==> run'[m] in ps)
  {
    var first := if run == [] then 0 else 1;
    var mid := run'[first..first + |ps|];
    forall k | 0 <= k < |mid| ensures mid[k] in ps { assert mid[k] == run'[first + k]; }
    forall k | 0 <= k < |ps| ensures ps[k] in mid {
      if run == [] && k == 0 { assert mid[0] == ps[0]; } else { assert mid[|ps| - k - first] == ps[k]; }
    }
  }

  lemma AddedInOrder<T>(run: seq<T>, ps: seq<T>, run': seq<T>, slp: seq<T>)
    requires Added(run, ps, run') && InOrder(ps, slp)
    ensures var n, first := |ps|, if run == [] then 0 else 1;
      forall m, l, i, j :: first <= m < l < first + n && 0 <= i < |slp| && 0 <= j < |slp| ==>
                             (run'[m] == slp[i] && run'[l] == slp[j] ==> if m == 0 then i < j else j < i)
  {
    var n, first := |ps|, if run == [] then 0 else 1;
    forall m, l, i, j | first <= m < l < first + n && 0 <= i < |slp| && 0 <= j < |slp|
                        && run'[m] == slp[i] && run'[l] == slp[j]
      ensures if m == 0 then i < j else j < i
    {
      assert run'[l] == ps[n - l] && run'[m] == ps[if m == 0 then 0 else n - m];
    }
  }

  lemma WokenSleep<T>(slp: seq<T>, awake: set<T>)
    requires NoTwins(slp)
    ensures SleepAfter(slp, awake, Asleep(slp, awake))
  {
    hide Stay, Resting, BeginsAt;
    var b := Resting(slp, awake);
    RestingIs(slp, awake);
    PartsWithin(slp[..b], awake);
    PartsInOrder(slp[..b], awake);
    Begins(slp, awake, b, Stay(slp[..b], awake));
  }

  lemma Begins<T>(slp: seq<T>, awake: set<T>, b: nat, rest: seq<T>)
    requires NoTwins(slp) && b <= |slp| && (b > 0 ==> slp[b - 1] in awake)
    requires (forall i :: b <= i < |slp| ==> slp[i] !in awake) && InOrder(rest, slp[..b])
    requires forall m :: 0 <= m < |rest| ==> rest[m] in slp[..b] && rest[m] !in awake
    requires forall i :: 0 <= i < b ==> (slp[..b][i] in awake <==> slp[..b][i] !in rest)
    ensures BeginsAt(slp, awake, slp[b..] + rest, b)
  {
    hide InOrder;
    var n, slp' := |slp| - b, slp[b..] + rest;
    assert slp'[n..] == rest && slp'[..n] == slp[b..];
    InOrderWider(rest, slp, b);
    forall i | 0 <= i < |slp| ensures slp[i] in awake <==> slp[i] !in slp' {
      assert slp[i] in slp' <==> slp[i] in slp[b..] || slp[i] in rest;
      if i < b { assert slp[..b][i] == slp[i]; } else { assert slp[b..][i - b] == slp[i]; }
    }
    forall m | 0 <= m < |slp'| ensures slp'[m] in slp {
      if m >= n { assert slp'[m] == rest[m - n]; } else { assert slp'[m] == slp[b + m]; }
    }
    forall m, i | n <= m < |slp'| && 0 <= i < |slp| && slp'[m] == slp[i] ensures i < b {
      assert slp'[m] == rest[m - n];
    }
  }

  lemma InOrderWider<T>(part: seq<T>, s: seq<T>, b: nat)
    requires NoTwins(s) && b <= |s| && InOrder(part, s[..b]) && forall m :: 0 <= m < |part| ==> part[m] in s[..b]
    ensures InOrder(part, s)
  {
    forall m, l, i, j | 0 <= m < l < |part| && 0 <= i < |s| && 0 <= j < |s| && part[m] == s[i] && part[l] == s[j]
      ensures i < j
    {
      assert part[m] in s[..b] && part[l] in s[..b];
      assert s[..b][i] == s[i] && s[..b][j] == s[j];
    }
  }

  // ---------------------------------------------------------------- runs of calls

  datatype Queues<T> = Queues(run: seq<T>, slp: seq<T>)

  // What the methods of the scheduler do to the queues; Wakes has the set of those who sleep on the address.
  datatype Call<T> = Switches | Forks(child: T) | Sleeps | Wakes(awake: set<T>)

  function Next<T(==)>(q: Queues<T>, c: Call<T>): Queues<T> {
    match c
    case Switches => Queues(Turned(q.run), q.slp)
    case Forks(p) => Queues(AddBehind(q.run, p), q.slp)
    case Sleeps => if q.run == [] then q else Queues(Turned(q.run[1..]), [q.run[0]] + q.slp)
    case Wakes(awake) => Queues(AddAll(q.run, Moved(q.slp, awake)), Asleep(q.slp, awake))
  }

  function NextAll<T(==)>(q: Queues<T>, cs: seq<Call<T>>): Queues<T>
    decreases |cs|
  {
    if cs == [] then q else NextAll(Next(q, cs[0]), cs[1..])
  }

  function Forked<T(==)>(cs: seq<Call<T>>): multiset<T>
    decreases |cs|
  {
    if cs == [] then multiset{} else (if cs[0].Forks? then multiset{cs[0].child} else multiset{}) + Forked(cs[1..])
  }

  function Everyone<T(==)>(q: Queues<T>): multiset<T> { multiset(q.run) + multiset(q.slp) }

  // Whatever is called: everyone there was and everyone forked is in one of the queues, and once only.
  lemma {:induction false} NobodyLost<T>(q: Queues<T>, cs: seq<Call<T>>)
    ensures Everyone(NextAll(q, cs)) == Everyone(q) + Forked(cs)
    decreases |cs|
  {
    if cs != [] {
      hide Next, Everyone;
      NobodyLostOnce(q, cs[0]);
      NobodyLost(Next(q, cs[0]), cs[1..]);
    }
  }

  lemma NobodyLostOnce<T>(q: Queues<T>, c: Call<T>)
    ensures Everyone(Next(q, c)) == Everyone(q) + if c.Forks? then multiset{c.child} else multiset{}
  {
    hide Moved, Asleep, AddAll, AddBehind, Turned;
    match c {
      case Switches =>
        TurnedSame(q.run);
      case Forks(p) =>
        AddBehindSame(q.run, p);
      case Sleeps =>
        if q.run != [] {
          TurnedSame(q.run[1..]);
          assert q.run == [q.run[0]] + q.run[1..];
        }
      case Wakes(awake) =>
        AddAllSame(q.run, Moved(q.slp, awake));
        AsleepSame(q.slp, awake);
    }
  }

  lemma TurnedSame<T>(s: seq<T>)
    ensures multiset(Turned(s)) == multiset(s)
  {
    if s != [] { assert s == [s[0]] + s[1..]; }
  }

  lemma AddBehindSame<T>(run: seq<T>, p: T)
    ensures multiset(AddBehind(run, p)) == multiset(run) + multiset{p}
  {
    if run != [] { assert run == [run[0]] + run[1..]; }
  }

  lemma {:induction false} AddAllSame<T>(run: seq<T>, ps: seq<T>)
    ensures multiset(AddAll(run, ps)) == multiset(run) + multiset(ps)
  {
    if ps != [] {
      var n := |ps| - 1;
      AddAllLast(run, ps);
      hide AddBehind, AddAll;
      AddAllSame(run, ps[..n]);
      AddBehindSame(AddAll(run, ps[..n]), ps[n]);
      LastOfMultiset(ps);
    }
  }

  lemma AddAllLast<T>(run: seq<T>, ps: seq<T>)
    requires ps != []
    ensures AddAll(run, ps) == AddBehind(AddAll(run, ps[..|ps| - 1]), ps[|ps| - 1])
  {
    hide AddBehind;
  }

  lemma LastOfMultiset<T>(ps: seq<T>)
    requires ps != []
    ensures multiset(ps) == multiset(ps[..|ps| - 1]) + multiset{ps[|ps| - 1]}
  {
    assert ps == ps[..|ps| - 1] + [ps[|ps| - 1]];
  }

  lemma {:induction false} SplitSame<T>(s: seq<T>, awake: set<T>)
    ensures multiset(Stay(s, awake)) + multiset(Moved(s, awake)) == multiset(s)
  {
    if s != [] {
      SplitSame(s[..|s| - 1], awake);
      assert s == s[..|s| - 1] + [s[|s| - 1]];
    }
  }

  lemma AsleepSame<T>(s: seq<T>, awake: set<T>)
    ensures multiset(Asleep(s, awake)) + multiset(Moved(s, awake)) == multiset(s)
  {
    RestingIs(s, awake);
    StayAll(s, awake, Resting(s, awake));
    SplitSame(s, awake);
  }

  // ---------------------------------------------------------------- fairness of the run queue

  function Turns<T>(s: seq<T>, k: nat): seq<T>
    decreases k
  {
    if k == 0 then s else Turns(Turned(s), k - 1)
  }

  // With switches only, the process at place k runs after k of them.
  lemma {:induction false} TurnComes<T>(s: seq<T>, k: nat)
    requires k < |s|
    ensures Turns(s, k) == s[k..] + s[..k] && Turns(s, k)[0] == s[k]
    decreases k
  {
    TurnsFrom(s, 0, k);
    assert s[0..] + s[..0] == s;
  }

  lemma {:induction false} TurnsFrom<T>(s: seq<T>, i: nat, k: nat)
    requires i + k < |s|
    ensures Turns(s[i..] + s[..i], k) == s[i + k..] + s[..i + k]
    decreases k
  {
    if k > 0 {
      assert Turned(s[i..] + s[..i]) == s[i + 1..] + s[..i + 1];
      TurnsFrom(s, i + 1, k - 1);
    }
  }

  lemma AddedMembers<T>(run: seq<T>, p: T)
    ensures forall q :: q in AddBehind(run, p) <==> q in run || q == p
    ensures AddBehind(run, p) != [] && (run != [] ==> AddBehind(run, p)[0] == run[0])
  {
    if run != [] { assert run == [run[0]] + run[1..]; }
  }

  lemma TailMembers<T>(s: seq<T>)
    requires s != []
    ensures forall q :: q in s[1..] ==> q in s
    ensures (forall i, j :: 0 <= i < j < |s| ==> s[i] != s[j]) ==> s[0] !in s[1..]
  {}

  // ---------------------------------------------------------------- rings

  datatype Status = Run | Sleeping | Idl

  class Proc {
    var next: Proc?
    var prev: Proc?
    var status: Status
    var wchan: nat    // 0 is NULL

    constructor ()
      ensures status == Idl && wchan == 0
    {
      next, prev, status, wchan := null, null, Idl, 0;
    }
  }

  // The processes of s, linked in a circle.
  ghost predicate Circle(s: seq<Proc>)
    reads s`next, s`prev
  {
    && (forall i {:trigger s[i].next} :: 0 <= i < |s| ==> s[i].next == s[if i + 1 < |s| then i + 1 else 0])
    && (forall i {:trigger s[i].prev} :: 0 <= i < |s| ==> s[i].prev == s[if i == 0 then |s| - 1 else i - 1])
    && (forall i, j :: 0 <= i < j < |s| ==> s[i] != s[j])
  }

  lemma CircleTurned(s: seq<Proc>)
    requires Circle(s) && s != []
    ensures Circle(Turned(s)) && s[0].next == Turned(s)[0]
  {
    var t := Turned(s);
    assert forall i :: 0 <= i < |t| ==> t[i] == s[if i + 1 < |s| then i + 1 else 0];
  }

  lemma {:induction false} CircleFrom(s: seq<Proc>, k: nat)
    requires Circle(s) && k <= |s|
    ensures Circle(s[k..] + s[..k])
  {
    if k == 0 {
      assert s[0..] + s[..0] == s;
    } else {
      CircleFrom(s, k - 1);
      assert Turned(s[k - 1..] + s[..k - 1]) == s[k..] + s[..k];
      CircleTurned(s[k - 1..] + s[..k - 1]);
    }
  }

  twostate lemma CircleKept(s: seq<Proc>)
    requires old(Circle(s)) && forall p :: p in s ==> p.next == old(p.next) && p.prev == old(p.prev)
    ensures Circle(s)
  {
    assert forall i :: 0 <= i < |s| ==> s[i] in s;
  }

  // Takes the first of a circle out.
  method Unlink(p: Proc, ghost s: seq<Proc>)
    requires Circle(s) && s != [] && p == s[0]
    modifies s`next, s`prev
    ensures Circle(s[1..])
    ensures |s| == 1 ==> p.next == p
    ensures |s| > 1 ==> p.next == s[1]
  {
    p.next.prev := p.prev;
    p.prev.next := p.next;
    assert forall i :: 0 <= i < |s[1..]| ==> s[1..][i] == s[i + 1];
  }

  // Puts p, which is in no circle, behind the head of one.
  method LinkBehind(head: Proc, p: Proc, ghost s: seq<Proc>)
    requires Circle(s) && s != [] && head == s[0] && p !in s
    modifies s`next, s`prev, p`next, p`prev
    ensures Circle(AddBehind(s, p))
  {
    p.next := head.next;
    head.next.prev := p;
    head.next := p;
    p.prev := head;
    ghost var t := AddBehind(s, p);
    assert forall i :: 0 <= i < |t| ==> t[i] == if i == 0 then s[0] else if i == 1 then p else s[i - 1];
  }

  // Puts p before the head.
  method LinkBefore(head: Proc, p: Proc, ghost s: seq<Proc>)
    requires Circle(s) && s != [] && head == s[0] && p !in s
    modifies s`next, s`prev, p`next, p`prev
    ensures Circle([p] + s)
  {
    head.prev.next := p;
    p.prev := head.prev;
    p.next := head;
    head.prev := p;
    ghost var t := [p] + s;
    assert forall i :: 0 <= i < |t| ==> t[i] == if i == 0 then p else s[i - 1];
  }

  lemma CircleNext(s: seq<Proc>, i: nat)
    requires i < |s| && Circle(s)
    ensures s[i].next == s[if i + 1 < |s| then i + 1 else 0]
    ensures i > 0 ==> s[i] != s[0]
    ensures forall j :: 0 <= j < |s| && j != i ==> s[j] != s[i]
  {}

  ghost function SleepersOn(slp: seq<Proc>, addr: nat): set<Proc>
    reads slp
  {
    set p | p in slp && p.wchan == addr
  }

  // The sleep ring, seen from place i, when those before have been dealt with.
  ghost function Remaining(s: seq<Proc>, i: nat, awake: set<Proc>): seq<Proc>
    requires i <= |s|
  {
    s[i..] + Stay(s[..i], awake)
  }

  lemma RemainingStep(s: seq<Proc>, i: nat, awake: set<Proc>)
    requires i < |s|
    ensures Remaining(s, i, awake) != [] && Remaining(s, i, awake)[0] == s[i]
    ensures Remaining(s, i + 1, awake) ==
            if s[i] in awake then Remaining(s, i, awake)[1..] else Turned(Remaining(s, i, awake))
    ensures Moved(s[..i + 1], awake) == if s[i] in awake then Moved(s[..i], awake) + [s[i]] else Moved(s[..i], awake)
    ensures Resting(s[..i + 1], awake) == if s[i] in awake then i + 1 else Resting(s[..i], awake)
  {
    assert s[..i + 1][..i] == s[..i] && s[..i + 1][i] == s[i];
  }

  // Where the sleep queue begins.
  ghost function HeadAt(s: seq<Proc>, i: nat, awake: set<Proc>): Proc?
    requires i <= |s|
  {
    var b := Resting(s[..i], awake);
    if b < |s| then s[b] else if Stay(s, awake) == [] then null else Stay(s, awake)[0]
  }

  lemma HeadStep(s: seq<Proc>, i: nat, awake: set<Proc>, next: Proc)
    requires i < |s|
    requires |Remaining(s, i, awake)| > 1 ==> next == Remaining(s, i, awake)[1]
    ensures s[i] !in awake ==> HeadAt(s, i + 1, awake) == HeadAt(s, i, awake)
    ensures s[i] in awake ==>
              HeadAt(s, i + 1, awake) == if |Remaining(s, i, awake)| == 1 then null else next
  {
    RemainingStep(s, i, awake);
    if i + 1 == |s| {
      assert s[..i + 1] == s && s[..|s| - 1] == s[..i];
    }
  }

  lemma AsleepIs(s: seq<Proc>, awake: set<Proc>)
    ensures Resting(s, awake) <= |s|
    ensures Asleep(s, awake) == [] ==> HeadAt(s, |s|, awake) == null
    ensures Asleep(s, awake) != [] ==> HeadAt(s, |s|, awake) == Asleep(s, awake)[0]
    ensures Remaining(s, |s|, awake) == Stay(s, awake)
    ensures var b := Resting(s, awake); Stay(s, awake) == Stay(s[..b], awake) + s[b..]
  {
    assert s[..|s|] == s;
    var b := Resting(s, awake);
    RestingIs(s, awake);
    StayAll(s, awake, b);
    if b == |s| { assert s[b..] == [] && s[..b] == s; }
  }

  lemma CircleAsleep(s: seq<Proc>, awake: set<Proc>)
    requires Circle(Stay(s, awake))
    ensures Circle(Asleep(s, awake))
  {
    var b := Resting(s, awake);
    AsleepIs(s, awake);
    var first := Stay(s[..b], awake);
    CircleFrom(Stay(s, awake), |first|);
    assert Stay(s, awake)[|first|..] == s[b..] && Stay(s, awake)[..|first|] == first;
  }

  // How sleep ends when it is called.
  datatype Nap = Switched | Waiting | NotRunning

  class Scheduler {
    var runqueue: Proc?
    var sleepqueue: Proc?
    var curproc: Proc?
    var idle: bool          // waiting for a wakeup, in sleep or in pswitch
    var inPswitch: bool
    var needToSwitch: bool
    ghost var run: seq<Proc>
    ghost var slp: seq<Proc>

    constructor ()
      ensures Valid() && run == [] && slp == [] && curproc == null
    {
      runqueue, sleepqueue, curproc, idle, inPswitch, needToSwitch := null, null, null, false, false, false;
      run, slp := [], [];
    }

    ghost predicate Rings()
      reads this`runqueue, this`sleepqueue, this`run, this`slp, run`next, run`prev, slp`next, slp`prev
    {
      && runqueue == (if run == [] then null else run[0]) && Circle(run)
      && sleepqueue == (if slp == [] then null else slp[0]) && Circle(slp)
      && (forall p :: p in run ==> p !in slp)
    }

    ghost predicate Statuses()
      reads this`run, this`slp, run, slp
    {
      && (forall p :: p in run ==> p.status != Sleeping)
      && (forall p :: p in slp ==> p.status == Sleeping)
    }

    // Who runs. While pswitch waits, nobody can: idle goes off only when somebody can again.
    ghost predicate Modes()
      reads this`run, this`slp, this`curproc, this`idle, this`inPswitch
    {
      && (!idle && !inPswitch && curproc != null ==> run != [] && run[0] == curproc)
      && (inPswitch ==> curproc != null && (idle <==> run == []))
      && (idle && !inPswitch ==> curproc == null)
      && (curproc == null ==> run == [] && slp == [])
    }

    ghost predicate Valid()
      reads this, run, slp
    {
      Rings() && Statuses() && Modes()
    }

    // The end of pswitch: the next process runs.
    method Forward()
      requires Rings() && Statuses() && run != [] && !idle
      modifies this`runqueue, this`run, this`curproc, this`inPswitch, this`needToSwitch
      ensures Valid() && run == Turned(old(run)) && curproc == run[0] && !inPswitch && !needToSwitch
    {
      CircleTurned(run);
      runqueue := runqueue.next;
      run := Turned(run);
      inPswitch := false;
      needToSwitch := false;
      curproc := runqueue;   // machdep_pswitch
    }

    // pswitch, up to its idle loop if it has to wait. Timer interrupts may call it at any time.
    method PSwitch()
      requires Valid()
      modifies this`runqueue, this`run, this`curproc, this`idle, this`inPswitch, this`needToSwitch
      ensures Valid() && slp == old(slp)
      ensures
        if old(idle) || old(inPswitch) || old(run == [] && curproc == null) then
          run == old(run) && curproc == old(curproc) && idle == old(idle) && inPswitch == old(inPswitch)
          && needToSwitch == old(needToSwitch)
        else
          && Queues(run, slp) == Next(old(Queues(run, slp)), Switches) && run != [] && curproc == run[0] && !inPswitch
          && !idle && !needToSwitch && old(run) != [] && run == old(run)[1..] + [old(run)[0]]
    {
      if idle || inPswitch { return; }
      Switch();
    }

    // The body of pswitch, also called by sleep, whose process is no longer on the run queue.
    method Switch()
      requires Rings() && Statuses() && !idle && !inPswitch && (curproc == null ==> run == [] && slp == [])
      modifies this`runqueue, this`run, this`curproc, this`idle, this`inPswitch, this`needToSwitch
      ensures Valid() && slp == old(slp)
      ensures old(run) == [] ==> run == [] && curproc == old(curproc) && inPswitch == idle == (curproc != null)
                                 && needToSwitch == old(needToSwitch)
      ensures old(run) != [] ==> run == Turned(old(run)) && run != [] && curproc == run[0] && !inPswitch && !idle
                                 && !needToSwitch
    {
      inPswitch := true;
      if curproc == null && runqueue == null {
        inPswitch := false;
        return;
      }
      if runqueue == null {
        idle := true;
        return;
      }
      Forward();
    }

    // pswitch after its idle loop. The panic "no runqueue" cannot occur.
    method Resume()
      requires Valid() && inPswitch && !idle
      modifies this`runqueue, this`run, this`curproc, this`inPswitch, this`needToSwitch
      ensures Valid() && slp == old(slp) && run == Turned(old(run)) && curproc == run[0] && !inPswitch && !needToSwitch
    {
      if runqueue == null {
        assert false;
      }
      Forward();
    }

    // machdep_fork: the child goes behind the head of the run queue.
    method Fork(child: Proc)
      requires Valid() && child !in run && child !in slp && child.status != Sleeping
      requires !idle && !inPswitch && curproc != null
      modifies this`runqueue, this`run, this`needToSwitch, run`next, run`prev, child`next, child`prev
      ensures Valid() && Queues(run, slp) == Next(old(Queues(run, slp)), Forks(child)) && curproc == old(curproc)
      ensures old(run) != [] && run == [old(run)[0], child] + old(run)[1..] && slp == old(slp) && needToSwitch
    {
      hide Circle;
      AddedMembers(run, child);
      Enqueue(child);
      CircleKept(slp);
      needToSwitch := true;
    }

    // Adds a process to the run queue, as fork and wakeup do.
    method Enqueue(p: Proc)
      requires runqueue == (if run == [] then null else run[0]) && Circle(run) && p !in run
      modifies this`runqueue, this`run, run`next, run`prev, p`next, p`prev
      ensures run == AddBehind(old(run), p) && run != [] && runqueue == run[0] && Circle(run)
    {
      if runqueue == null {
        p.next, p.prev := p, p;
        runqueue := p;
      } else {
        LinkBehind(runqueue, p, run);
      }
      run := AddBehind(run, p);
    }

    // The first process that the kernel makes: the end of execve, where interrupts are off until startproc has jumped
    // to the process.
    method Start(p: Proc)
      requires Valid() && run == [] && slp == [] && curproc == null && !idle
      modifies this`runqueue, this`run, this`curproc, p
      ensures Valid() && run == [p] && slp == [] && curproc == p && p.status == Run && p.wchan == old(p.wchan)
    {
      if runqueue == null {
        runqueue := p;
        p.next, p.prev := p, p;
      }
      p.status := Run;
      run := [p];
      curproc := p;   // machdep_pswitch, called by startproc
    }

    // sleep: the running process leaves the run queue, and the next one runs, if there is one.
    method Sleep(addr: nat) returns (r: Nap)
      requires Valid() && !idle && !inPswitch
      modifies this, run, slp
      ensures Valid()
      ensures r == Waiting ==> run == [] && idle
      ensures
        if old(curproc) == null then r == Waiting && slp == old(slp) && run == old(run)
        else
          var p := old(curproc);
          && r in {Switched, Waiting} && slp == [p] + old(slp) && p.wchan == addr && p.status == Sleeping
          && Queues(run, slp) == Next(old(Queues(run, slp)), Sleeps) && (r == Waiting <==> run == [])
          && (run != [] ==> curproc == run[0]) && old(run) != []
          && run == (if |old(run)| == 1 then [] else old(run)[2..] + [old(run)[1]])
          && (run != [] ==> !idle && !inPswitch && !needToSwitch)
      ensures forall q :: (q in old(run) || q in old(slp)) && q != old(curproc) ==>
                q.status == old(q.status) && q.wchan == old(q.wchan)
    {
      hide Circle, Resting, Asleep;
      if curproc == null {
        idle := true;
        return Waiting;
      }
      if curproc.status != Run && curproc.status != Idl { return NotRunning; }
      curproc.status := Sleeping;
      curproc.wchan := addr;
      if runqueue != curproc {
        assert false;   // "inconsistensy in the run queue"
      }
      Dequeue();
      SleepFirst(curproc);
      Switch();
      r := if idle then Waiting else Switched;
    }

    // The head leaves the run queue.
    method Dequeue()
      requires Rings() && run != []
      modifies this`runqueue, this`run, run`next, run`prev
      ensures Rings() && run == old(run)[1..] && old(runqueue) != null && old(runqueue) !in run && old(runqueue) !in slp
    {
      ghost var s := run;
      var p := runqueue;
      Unlink(p, run);
      if p == p.next { runqueue := null; } else { runqueue := p.next; }
      run := s[1..];
      TailMembers(s);
      CircleKept(slp);
    }

    // p, in neither queue, becomes the head of the sleep queue.
    method SleepFirst(p: Proc)
      requires Rings() && p !in run && p !in slp
      modifies this`sleepqueue, this`slp, slp`next, slp`prev, p`next, p`prev
      ensures Rings() && slp == [p] + old(slp)
    {
      if sleepqueue != null {
        LinkBefore(sleepqueue, p, slp);
      } else {
        p.next, p.prev := p, p;
      }
      sleepqueue := p;
      slp := [p] + slp;
      CircleKept(run);
    }

    // First round of wakeup: mark, and count.
    method MarkSleepers(addr: nat) returns (total: nat)
      requires Rings() && slp != []
      modifies slp`status
      ensures total == |slp| && Rings()
      ensures forall p :: p in slp ==> p.status == if p.wchan == addr then Run else old(p.status)
    {
      hide Circle;
      var p := sleepqueue;
      var done := false;
      total := 0;
      while !done
        invariant total <= |slp| && p == slp[if total < |slp| then total else 0] && (done <==> total == |slp|)
        invariant forall j :: 0 <= j < |slp| ==>
                    slp[j].status == if j < total && slp[j].wchan == addr then Run else old(slp[j].status)
        decreases |slp| - total
      {
        CircleNext(slp, total);
        if p.wchan == addr { p.status := Run; }
        p := p.next;
        total := total + 1;
        if total < |slp| { CircleNext(slp, total); }
        if p == sleepqueue { done := true; }
      }
    }

    // p, first in what remains of the sleep ring, leaves it.
    method LeaveRing(p: Proc, ghost ring: seq<Proc>) returns (next: Proc)
      requires Circle(ring) && ring != [] && p == ring[0] && Circle(run) && forall q :: q in ring ==> q !in run
      modifies ring`next, ring`prev
      ensures Circle(ring[1..]) && Circle(run) && next == if |ring| > 1 then ring[1] else p
    {
      next := p.next;
      CircleHead(ring);
      Unlink(p, ring);
      CircleKept(run);
    }

    // It goes to the run queue.
    method Wake(p: Proc, ghost rest: seq<Proc>)
      requires Circle(rest) && p !in rest && p !in run && forall q :: q in rest ==> q !in run
      requires runqueue == (if run == [] then null else run[0]) && Circle(run)
      modifies this`runqueue, this`run, run`next, run`prev, p`next, p`prev, p`wchan
      ensures Circle(rest) && run == AddBehind(old(run), p) && run != [] && runqueue == run[0] && Circle(run)
      ensures p.wchan == 0
    {
      AddedMembers(run, p);
      Enqueue(p);
      CircleKept(rest);
      p.wchan := 0;
    }

    // The second round of wakeup, when k sleepers of s have been dealt with.
    ghost predicate Moving(s: seq<Proc>, run0: seq<Proc>, k: nat, awake: set<Proc>)
      requires k <= |s|
      reads this`runqueue, this`sleepqueue, this`run, run`next, run`prev, Remaining(s, k, awake)`next,
            Remaining(s, k, awake)`prev
    {
      && Circle(Remaining(s, k, awake)) && Circle(run)
      && runqueue == (if run == [] then null else run[0]) && sleepqueue == HeadAt(s, k, awake)
      && run == AddAll(run0, Moved(s[..k], awake))
      && (forall q :: q in Remaining(s, k, awake) ==> q !in run)
    }

    lemma Skip(s: seq<Proc>, run0: seq<Proc>, k: nat, awake: set<Proc>)
      requires k < |s| && Moving(s, run0, k, awake) && s[k] !in awake
      ensures Moving(s, run0, k + 1, awake)
      ensures k + 1 < |s| ==> s[k].next == s[k + 1]
      ensures s[k].next != null
    {
      hide Circle, AddAll, Moved, Stay, Resting, Remaining, HeadAt;
      RemainingStep(s, k, awake);
      RingFacts(s, k, awake);
      CircleHead(Remaining(s, k, awake));
      HeadStep(s, k, awake, s[k].next);
    }

    // A marked sleeper is moved.
    method MoveMarked(p: Proc, ghost s: seq<Proc>, ghost run0: seq<Proc>, ghost k: nat, ghost awake: set<Proc>,
                      ghost all: set<Proc>)
      returns (next: Proc, none: bool)
      requires k < |s| && Moving(s, run0, k, awake) && p == s[k] && p in awake
      requires forall q :: q in run || q in s ==> q in all
      modifies this`runqueue, this`sleepqueue, this`run, all`next, all`prev, p`wchan
      ensures Moving(s, run0, k + 1, awake) && (forall q :: q in run ==> q in all) && p.wchan == 0
      ensures k + 1 < |s| ==> next == s[k + 1]
      ensures none ==> k + 1 == |s|
    {
      hide Circle, AddAll, Moved, Stay, Resting, Remaining, HeadAt;
      ghost var ring := Remaining(s, k, awake);
      RemainingMembers(s, k, awake);
      RemainingStep(s, k, awake);
      RingFacts(s, k, awake);
      CircleHead(ring);
      MovedOneMore(run0, s, k, awake);
      AddedMembers(run, p);
      assert p in s;
      next := LeaveRing(p, ring);
      HeadStep(s, k, awake, next);
      Wake(p, ring[1..]);
      none := p == next;
      if none { sleepqueue := null; } else { sleepqueue := next; }
    }

    // One sleeper: it is moved, if marked, and the next one follows.
    method MoveStep(p: Proc, ghost s: seq<Proc>, ghost run0: seq<Proc>, ghost k: nat, ghost awake: set<Proc>,
                    ghost all: set<Proc>)
      returns (next: Proc, none: bool)
      requires k < |s| && Moving(s, run0, k, awake) && p == s[k] && (p.status == Run <==> p in awake)
      requires forall q :: q in run || q in s ==> q in all
      modifies this`runqueue, this`sleepqueue, this`run, all`next, all`prev, p`wchan
      ensures Moving(s, run0, k + 1, awake) && forall q :: q in run ==> q in all
      ensures k + 1 < |s| ==> next == s[k + 1]
      ensures none ==> k + 1 == |s|
      ensures p.wchan == if p in awake then 0 else old(p.wchan)
    {
      hide Moving;
      if p.status == Run {
        next, none := MoveMarked(p, s, run0, k, awake, all);
      } else {
        Skip(s, run0, k, awake);
        next, none := p.next, false;
      }
    }

    // The loop of the second round.
    method MoveLoop(total: nat, ghost awake: set<Proc>) returns (any: bool)
      requires Moving(slp, run, 0, awake) && total == |slp| > 0 && sleepqueue == slp[0]
      requires forall i, j :: 0 <= i < j < |slp| ==> slp[i] != slp[j]
      requires forall p :: p in slp ==> (p.status == Run <==> p in awake)
      modifies this`runqueue, this`sleepqueue, this`run, run`next, run`prev, slp`next, slp`prev, slp`wchan
      ensures Moving(slp, old(run), |slp|, awake)
      ensures any <==> exists j :: 0 <= j < |slp| && slp[j] in awake
      ensures forall j :: 0 <= j < |slp| ==> slp[j].wchan == if slp[j] in awake then 0 else old(slp[j].wchan)
    {
      hide Moving;
      ghost var s, k: nat, all := slp, 0, set q | q in run || q in slp;
      var p := sleepqueue;
      var i := 0;
      any := false;
      while i < total
        invariant k <= |s| == total && (if i <= total then k == i else k == total)
        invariant k < |s| ==> p == s[k]
        invariant Moving(s, old(run), k, awake) && forall q :: q in run ==> q in all
        invariant any <==> exists j :: 0 <= j < k && s[j] in awake
        invariant forall j :: 0 <= j < |s| ==>
                    s[j].wchan == if j < k && s[j] in awake then 0 else old(s[j].wchan)
        decreases total - i
      {
        assert s[k] in s;
        if p.status == Run { any := true; }
        var next, none := MoveStep(p, s, old(run), k, awake, all);
        if none { i := total; }
        if i < total { p := next; }
        i := i + 1;
        k := k + 1;
      }
    }

    // Second round: everyone marked is moved.
    method MoveSleepers(total: nat, ghost awake: set<Proc>) returns (any: bool)
      requires Rings() && total == |slp| > 0
      requires forall p :: p in slp ==> (p.status == Run <==> p in awake)
      modifies this`runqueue, this`sleepqueue, this`run, this`slp, run`next, run`prev, slp`next, slp`prev, slp`wchan
      ensures Rings() && run == AddAll(old(run), Moved(old(slp), awake)) && slp == Asleep(old(slp), awake)
      ensures RunAfter(old(run), old(slp), awake, run) && SleepAfter(old(slp), awake, slp)
      ensures any <==> exists p :: p in old(slp) && p in awake
      ensures forall p :: p in old(slp) ==> p.wchan == if p in awake then 0 else old(p.wchan)
    {
      hide Circle, AddAll, Moved, Asleep, Moving, RunAfter, SleepAfter;
      StartMoving(awake);
      WokenRun(run, slp, awake);
      WokenSleep(slp, awake);
      any := MoveLoop(total, awake);
      EndMoving(slp, old(run), awake);
      slp := Asleep(slp, awake);
    }

    lemma StartMoving(awake: set<Proc>)
      requires Rings() && slp != []
      ensures Moving(slp, run, 0, awake) && forall i, j :: 0 <= i < j < |slp| ==> slp[i] != slp[j]
    {
      assert slp[..0] == [] && slp[0..] == slp;
      assert Stay([], awake) == [] && Remaining(slp, 0, awake) == slp;
    }

    lemma EndMoving(s: seq<Proc>, run0: seq<Proc>, awake: set<Proc>)
      requires Moving(s, run0, |s|, awake)
      ensures run == AddAll(run0, Moved(s, awake)) && Circle(run) && Circle(Asleep(s, awake))
      ensures sleepqueue == if Asleep(s, awake) == [] then null else Asleep(s, awake)[0]
      ensures runqueue == if run == [] then null else run[0]
      ensures forall q :: q in run ==> q !in Asleep(s, awake)
    {
      hide Circle;
      assert s[..|s|] == s;
      AsleepIs(s, awake);
      CircleAsleep(s, awake);
      forall q | q in Asleep(s, awake) ensures q !in run {
        AsleepMembers(s, awake, q);
        StayMembers(s, awake, q);
      }
    }

    // Both rounds.
    method MoveAll(addr: nat) returns (any: bool)
      requires Rings() && Statuses() && slp != []
      modifies this`runqueue, this`sleepqueue, this`run, this`slp,
               run`next, run`prev, slp`next, slp`prev, slp`status, slp`wchan
      ensures var awake := old(SleepersOn(slp, addr));
        && Rings() && run == AddAll(old(run), Moved(old(slp), awake)) && slp == Asleep(old(slp), awake)
        && (any <==> awake != {}) && Statuses()
        && (forall p :: p in old(slp) ==>
                          if p in awake then p.status == Run && p.wchan == 0
                          else p.status == Sleeping && p.wchan == old(p.wchan))
    {
      hide Circle, AddAll, Moved, Asleep, SleepersOn, RunAfter, SleepAfter;
      ghost var awake := SleepersOn(slp, addr);
      SleepersAre(slp, addr);
      ghost var run0, slp0 := run, slp;
      QueueHeads();
      var total := MarkSleepers(addr);
      any := MoveSleepers(total, awake);
      WakeMembers(run0, slp0, awake);
      assert forall p :: p in run0 ==> p !in slp0 && p.status == old(p.status);
    }

    // wakeup: exactly the sleepers on addr go to the run queue. Interrupt handlers call it too, also while pswitch
    // waits; then it ends the wait.
    method Wakeup(addr: nat)
      requires Valid()
      modifies this`runqueue, this`sleepqueue, this`run, this`slp, this`idle, this`needToSwitch,
               run`next, run`prev, slp`next, slp`prev, slp`status, slp`wchan
      ensures Valid()
      ensures curproc == null ==> !idle && run == old(run) && slp == old(slp)
      ensures curproc != null ==> Woken(old(slp), addr)
      ensures curproc != null ==>
                var awake := old(SleepersOn(slp, addr));
                RunAfter(old(run), old(slp), awake, run) && SleepAfter(old(slp), awake, slp)
    {
      hide Circle, AddAll, Moved, Asleep, SleepersOn, Rings, Statuses, Next, RunAfter, SleepAfter, NoTwins;
      if curproc == null {
        idle := false;
        return;
      }
      ghost var awake := SleepersOn(slp, addr);
      QueuesAfter(awake);
      SleepersAre(slp, addr);
      QueueHeads();
      if sleepqueue == null {
        AsleepNobody(slp, run, awake);
        return;
      }
      WakeSome(addr);
    }

    // Exactly the sleepers on addr can run again, and pswitch need not wait any more if there is one.
    twostate predicate Woken(sleepers: seq<Proc>, addr: nat)
      reads this, sleepers
    {
      var awake := old(SleepersOn(sleepers, addr));
      && Queues(run, slp) == Next(Queues(old(run), sleepers), Wakes(awake))
      && (forall p :: p in sleepers ==>
                        if p in awake then p.status == Run && p.wchan == 0
                        else p.status == Sleeping && p.wchan == old(p.wchan))
      && (idle <==> old(idle) && awake == {})
      && (needToSwitch <==> old(needToSwitch) || awake != {})
    }

    lemma QueuesAfter(awake: set<Proc>)
      requires Rings()
      ensures var q := Next(Queues(run, slp), Wakes(awake));
        RunAfter(run, slp, awake, q.run) && SleepAfter(slp, awake, q.slp)
    {
      hide RunAfter, SleepAfter, AddAll, Moved, Asleep;
      WokenRun(run, slp, awake);
      WokenSleep(slp, awake);
    }

    // With somebody on the sleep queue.
    method WakeSome(addr: nat)
      requires Valid() && curproc != null && slp != []
      modifies this`runqueue, this`sleepqueue, this`run, this`slp, this`idle, this`needToSwitch,
               run`next, run`prev, slp`next, slp`prev, slp`status, slp`wchan
      ensures Valid() && Woken(old(slp), addr)
    {
      hide Circle, AddAll, Moved, Asleep, SleepersOn, Rings, Statuses, Next, Modes;
      ghost var awake := SleepersOn(slp, addr);
      SleepersAre(slp, addr);
      ghost var run0, slp0 := run, slp;
      ModesAre();
      var any := MoveAll(addr);
      WakeHead(run0, slp0, awake);
      assert runqueue == null <==> run == [] by { QueueHeads(); }
      if runqueue != null { idle := false; }
      if any { needToSwitch := true; }
      ModesAre();
    }

    lemma ModesAre()
      requires curproc != null
      ensures Modes() <==> if inPswitch then idle <==> run == [] else !idle && run != [] && run[0] == curproc
    {}

    lemma QueueHeads()
      requires Rings()
      ensures (runqueue == null <==> run == []) && (sleepqueue == null <==> slp == [])
      ensures forall p :: p in run ==> p !in slp
    {}
  }

  lemma SleepersAre(slp: seq<Proc>, addr: nat)
    ensures forall p :: p in SleepersOn(slp, addr) <==> p in slp && p.wchan == addr
    ensures SleepersOn(slp, addr) <= set p | p in slp
    ensures SleepersOn(slp, addr) == {} <==> forall p :: p in slp ==> p !in SleepersOn(slp, addr)
  {
    var awake := SleepersOn(slp, addr);
    if awake != {} {
      var p :| p in awake;
      assert p in slp;
    }
  }

  lemma AsleepNobody(slp: seq<Proc>, run: seq<Proc>, awake: set<Proc>)
    requires slp == []
    ensures Next(Queues(run, slp), Wakes(awake)) == Queues(run, slp)
  {}

  lemma WakeMembers(run: seq<Proc>, slp: seq<Proc>, awake: set<Proc>)
    ensures forall p :: p in AddAll(run, Moved(slp, awake)) <==> p in run || (p in slp && p in awake)
    ensures forall p :: p in Asleep(slp, awake) <==> p in slp && p !in awake
    ensures run != [] ==> AddAll(run, Moved(slp, awake)) != [] && AddAll(run, Moved(slp, awake))[0] == run[0]
    ensures AddAll(run, Moved(slp, awake)) == [] <==> run == [] && forall p :: p in slp ==> p !in awake
  {
    forall p ensures p in AddAll(run, Moved(slp, awake)) <==> p in run || (p in slp && p in awake)
             ensures p in Asleep(slp, awake) <==> p in slp && p !in awake
    {
      StayMembers(slp, awake, p);
      AsleepMembers(slp, awake, p);
      AddAllMembers(run, Moved(slp, awake), p);
    }
    if run != [] { AddAllMembers(run, Moved(slp, awake), run[0]); }
    var all := AddAll(run, Moved(slp, awake));
    if all != [] {
      var p := all[0];
      assert p in all;
      AddAllMembers(run, Moved(slp, awake), p);
      StayMembers(slp, awake, p);
    }
    if run == [] && all == [] {
      forall p | p in slp ensures p !in awake { assert p !in all; }
    }
  }

  lemma WakeHead(run: seq<Proc>, slp: seq<Proc>, awake: set<Proc>)
    requires awake <= set p | p in slp
    ensures run != [] ==> AddAll(run, Moved(slp, awake)) != [] && AddAll(run, Moved(slp, awake))[0] == run[0]
    ensures AddAll(run, Moved(slp, awake)) == [] <==> run == [] && awake == {}
    ensures Next(Queues(run, slp), Wakes(awake)) == Queues(AddAll(run, Moved(slp, awake)), Asleep(slp, awake))
  {
    hide AddAll, Moved, Asleep;
    WakeMembers(run, slp, awake);
    if awake != {} {
      var p :| p in awake;
      assert p in slp;
    }
  }

  lemma RemainingMembers(s: seq<Proc>, k: nat, awake: set<Proc>)
    requires k <= |s|
    ensures forall q :: q in Remaining(s, k, awake) ==> q in s
  {
    forall q | q in Remaining(s, k, awake) ensures q in s { StayMembers(s[..k], awake, q); }
  }

  lemma RingFacts(s: seq<Proc>, k: nat, awake: set<Proc>)
    requires k < |s|
    ensures var ring := Remaining(s, k, awake);
      && (|ring| == 1 ==> k + 1 == |s|)
      && (k + 1 < |s| ==> |ring| > 1 && ring[1] == s[k + 1])
  {}

  lemma CircleHead(ring: seq<Proc>)
    requires Circle(ring) && ring != []
    ensures ring[0].next == if |ring| > 1 then ring[1] else ring[0]
    ensures |ring| > 1 ==> ring[0] != ring[1]
    ensures Circle(Turned(ring)) && forall q :: q in Turned(ring) <==> q in ring
    ensures forall q :: q in ring[1..] <==> q in ring && q != ring[0]
  {
    CircleTurned(ring);
    assert ring == [ring[0]] + ring[1..];
  }

  lemma MovedOneMore(run0: seq<Proc>, s: seq<Proc>, k: nat, awake: set<Proc>)
    requires k < |s| && s[k] in awake
    ensures AddAll(run0, Moved(s[..k + 1], awake)) == AddBehind(AddAll(run0, Moved(s[..k], awake)), s[k])
  {
    RemainingStep(s, k, awake);
    var m := Moved(s[..k], awake);
    assert (m + [s[k]])[..|m|] == m;
  }
}
