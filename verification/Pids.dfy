/** kern/sys_fork.c: the bitmap of process ids. */
module Pids {
  import opened Basics

  const PID_MIN := 2
  const PID_MAX := 32766
  const BYTES := (PID_MAX - PID_MIN + 1) / 8 + 1

  // The byte and the bit of a process id.
  function ByteOf(pid: int): int { (pid - PID_MIN) / 8 }
  function BitOf(pid: int): int { (pid - PID_MIN) % 8 }

  predicate InRange(pid: int) { PID_MIN <= pid <= PID_MAX }

  lemma OneBitEach(p: int, q: int)
    requires InRange(p) && InRange(q)
    ensures 0 <= ByteOf(p) < BYTES && 0 <= BitOf(p) < 8
    ensures ByteOf(p) == ByteOf(q) && BitOf(p) == BitOf(q) ==> p == q
  {}

  // Process ids not looked at yet when a search that began at `start` is at `at`.
  function Ahead(start: int, at: int): int { if at >= start then PID_MAX - at + start - PID_MIN + 1 else start - at }

  // What has been looked at.
  predicate Seen(start: int, at: int, pid: int) {
    InRange(pid) && if at >= start then start <= pid < at else start <= pid || pid < at
  }

  class Bitmap {
    const bytes: array<set<int>>    // pidbitmap: each byte as the set of its bits that are 1
    var lastpid: int

    ghost predicate Valid()
      reads this, bytes
    {
      bytes.Length == BYTES
    }

    predicate IsUsed(pid: int)
      reads bytes
      requires bytes.Length == BYTES && InRange(pid)
    {
      OneBitEach(pid, pid);
      BitOf(pid) in bytes[ByteOf(pid)]
    }

    // The process ids in use.
    ghost function Used(): set<int>
      reads bytes
      requires bytes.Length == BYTES
    {
      set pid | PID_MIN <= pid <= PID_MAX && IsUsed(pid)
    }

    constructor ()
      ensures Valid() && fresh(bytes) && Used() == {}
    {
      bytes := new set<int>[BYTES](_ => {});
      lastpid := PID_MIN;
    }

    // 0: removed. 1: was not in use. 2: out of range.
    method Remove(pid: int) returns (r: int)
      requires Valid()
      modifies bytes
      ensures r == if pid < 2 || pid > 32766 then 2 else if pid in old(Used()) then 0 else 1
      ensures Used() == old(Used()) - {pid}
    {
      if pid < PID_MIN || pid > PID_MAX { return 2; }
      var index, mask := ByteOf(pid), BitOf(pid);
      forall q | InRange(q) ensures ByteOf(q) == index && BitOf(q) == mask ==> q == pid { OneBitEach(q, pid); }
      OneBitEach(pid, pid);
      if mask in bytes[index] {
        bytes[index] := bytes[index] - {mask};
        return 0;
      }
      return 1;
    }

    method Mark(pid: int)
      requires Valid() && InRange(pid)
      modifies bytes
      ensures Used() == old(Used()) + {pid}
    {
      var index, mask := ByteOf(pid), BitOf(pid);
      forall q | InRange(q) ensures ByteOf(q) == index && BitOf(q) == mask ==> q == pid { OneBitEach(q, pid); }
      OneBitEach(pid, pid);
      bytes[index] := bytes[index] + {mask};
    }

    // The first free process id from the hint on, around the range once. 0 exactly when all are in use.
    method GetUnused() returns (pid: int)
      requires Valid()
      modifies this`lastpid, bytes
      ensures pid == 0 <==> forall q :: 2 <= q <= 32766 ==> q in old(Used())
      ensures pid != 0 ==> 2 <= pid <= 32766 && pid !in old(Used()) && lastpid == pid + 1
      ensures Used() == if pid == 0 then old(Used()) else old(Used()) + {pid}
      ensures pid != 0 ==>
                var start := if InRange(old(lastpid)) then old(lastpid) else PID_MIN;
                forall q :: Seen(start, pid, q) ==> q in old(Used())
    {
      if lastpid > PID_MAX || lastpid < PID_MIN { lastpid := PID_MIN; }
      var oldlastpid := lastpid;
      while true
        invariant InRange(lastpid) && InRange(oldlastpid)
        invariant oldlastpid == if InRange(old(lastpid)) then old(lastpid) else PID_MIN
        invariant bytes[..] == old(bytes[..])
        invariant forall q :: Seen(oldlastpid, lastpid, q) ==> q in old(Used())
        decreases Ahead(oldlastpid, lastpid)
      {
        OneBitEach(lastpid, lastpid);
        if BitOf(lastpid) in bytes[ByteOf(lastpid)] {
          assert lastpid in old(Used());
          ghost var at := lastpid;
          lastpid := lastpid + 1;
          if lastpid > PID_MAX { lastpid := PID_MIN; }
          if lastpid == oldlastpid {
            forall q | InRange(q) ensures q in old(Used()) { assert q == at || Seen(oldlastpid, at, q); }
            return 0;
          }
        } else {
          assert lastpid !in old(Used());
          pid := lastpid;
          Mark(pid);
          lastpid := lastpid + 1;
          return;
        }
      }
    }
  }
}
