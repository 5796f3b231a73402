/** modules/fs/msdosfs: following the 12-bit FAT and reading a file, block by block through the buffer cache. */
module Fat12 {
  import opened Basics
  import opened VmObjects
  import opened BufferCache

  const SECTOR := 512
  const LAST := 0xff0   // entries from here on end a chain

  type Disk = map<nat, Bytes>

  // What the superblock says; nrOfBlocks counts data sectors.
  datatype Fs = Fs(reservedSectors: nat, firstDataSector: nat, sectorsPerCluster: nat, nrOfBlocks: nat)

  predicate GoodFs(fs: Fs) { fs.sectorsPerCluster > 0 && 3 * fs.nrOfBlocks < 0x8000_0000 }

  predicate Sized(disk: Disk) { forall nr :: nr in disk ==> |disk[nr]| == SECTOR }

  // ---------------------------------------------------------------- the FAT

  function NrOfEntries(fs: Fs): nat
    requires GoodFs(fs)
  {
    fs.nrOfBlocks / fs.sectorsPerCluster
  }

  // Entry c from the two bytes it is in.
  function Entry12(low: Byte, high: Byte, c: nat): nat {
    var word := low as nat + high as nat * 256;
    if c % 2 == 1 then word / 16 else word % 0x1000
  }

  predicate FatHas(fs: Fs, disk: Disk, k: nat) { fs.reservedSectors + k / SECTOR in disk }

  function FatByte(fs: Fs, disk: Disk, k: nat): Byte
    requires Sized(disk) && FatHas(fs, disk, k)
  {
    disk[fs.reservedSectors + k / SECTOR][k % SECTOR]
  }

  // The cluster after c; 0 if there is none.
  function NextOf(fs: Fs, disk: Disk, c: nat): nat
    requires GoodFs(fs) && Sized(disk)
  {
    var k := 3 * c / 2;
    if c > NrOfEntries(fs) || !FatHas(fs, disk, k) || !FatHas(fs, disk, k + 1) then 0
    else Chained(Entry12(FatByte(fs, disk, k), FatByte(fs, disk, k + 1), c))
  }

  function Chained(entry: nat): nat { if entry >= LAST then 0 else entry }

  // A table of 12-bit entries as it is on disk: two entries in three bytes.
  predicate AreEntries(es: seq<nat>) { forall c :: 0 <= c < |es| ==> es[c] < 0x1000 }

  function Packed(es: seq<nat>): (b: Bytes)
    requires AreEntries(es)
  {
    if es == [] then []
    else if |es| == 1 then [(es[0] % 256) as Byte, (es[0] / 256) as Byte]
    else [(es[0] % 256) as Byte, (es[0] / 256 + es[1] % 16 * 16) as Byte, (es[1] / 16) as Byte] + Packed(es[2..])
  }

  // Decoding finds every entry of every table.
  lemma {:induction false} Unpacked(es: seq<nat>, c: nat)
    requires AreEntries(es) && c < |es|
    ensures 3 * c / 2 + 1 < |Packed(es)|
    ensures
      var word := Packed(es)[3 * c / 2] as nat + Packed(es)[3 * c / 2 + 1] as nat * 256;
      es[c] == if c % 2 == 0 then word % 0x1000 else word / 16
    decreases |es|
  {
    if c >= 2 {
      Unpacked(es[2..], c - 2);
      Shifted(c);
      var rest := Packed(es[2..]);
      assert Packed(es)[3 * c / 2] == rest[3 * (c - 2) / 2] && Packed(es)[3 * c / 2 + 1] == rest[3 * (c - 2) / 2 + 1];
    } else if c == 1 {
      Odd(es[0], es[1]);
    } else {
      Even(es[0], if |es| == 1 then 0 else es[1]);
    }
  }

  lemma Shifted(c: nat)
    requires c >= 2
    ensures 3 * c / 2 == 3 + 3 * (c - 2) / 2 && (c - 2) % 2 == c % 2
  {}

  lemma Even(a: nat, b: nat)
    requires a < 0x1000 && b < 0x1000
    ensures (a % 256 + (a / 256 + b % 16 * 16) * 256) % 0x1000 == a
  {
    assert a % 256 + (a / 256 + b % 16 * 16) * 256 == a + 0x1000 * (b % 16);
  }

  lemma Odd(a: nat, b: nat)
    requires a < 0x1000 && b < 0x1000
    ensures (a / 256 + b % 16 * 16 + b / 16 * 256) / 16 == b
  {
    assert a / 256 + b % 16 * 16 + b / 16 * 256 == a / 256 + 16 * b;
  }

  // The disk's FAT is this table; it may begin and end anywhere within sectors.
  predicate HoldsFat(fs: Fs, disk: Disk, es: seq<nat>)
    requires Sized(disk) && AreEntries(es)
  {
    forall k :: 0 <= k < |Packed(es)| ==>
      fs.reservedSectors + k / 512 in disk && disk[fs.reservedSectors + k / 512][k % 512] == Packed(es)[k]
  }

  // Following the chain gives what the table says, except that it stops after the number of entries: entries from 0xff0
  // on end it.
  lemma FollowsTable(fs: Fs, disk: Disk, es: seq<nat>, c: nat)
    requires GoodFs(fs) && Sized(disk) && AreEntries(es) && HoldsFat(fs, disk, es) && c < |es|
    ensures NextOf(fs, disk, c) ==
            if c > fs.nrOfBlocks / fs.sectorsPerCluster || es[c] >= 0xff0 then 0 else es[c]
  {
    hide Packed;
    Unpacked(es, c);
    assert FatHas(fs, disk, 3 * c / 2) && FatHas(fs, disk, 3 * c / 2 + 1);
  }

  // Whatever table the disk holds.
  ghost predicate AsInTable(fs: Fs, disk: Disk, c: nat, next: nat)
    requires GoodFs(fs) && Sized(disk)
  {
    forall es :: AreEntries(es) && HoldsFat(fs, disk, es) && c < |es| ==>
      next == if c > fs.nrOfBlocks / fs.sectorsPerCluster || es[c] >= 0xff0 then 0 else es[c]
  }

  lemma FollowsAny(fs: Fs, disk: Disk, c: nat)
    requires GoodFs(fs) && Sized(disk)
    ensures AsInTable(fs, disk, c, NextOf(fs, disk, c))
  {
    hide NextOf, HoldsFat, AreEntries;
    forall es | AreEntries(es) && HoldsFat(fs, disk, es) && c < |es|
      ensures NextOf(fs, disk, c) == if c > fs.nrOfBlocks / fs.sectorsPerCluster || es[c] >= 0xff0 then 0 else es[c]
    {
      FollowsTable(fs, disk, es, c);
    }
  }

  // ---------------------------------------------------------------- clusters

  function BytesPerCluster(fs: Fs): (n: nat)
    requires GoodFs(fs)
    ensures n == fs.sectorsPerCluster * 512 > 0
  {
    var n := At(fs.sectorsPerCluster, SECTOR);
    assert n == fs.sectorsPerCluster * SECTOR;
    n
  }

  // msdosfs_cluster_to_sector, in 32-bit arithmetic
  function SectorOf(fs: Fs, c: nat): nat { (fs.firstDataSector + fs.sectorsPerCluster * (c - 2)) % WORD }

  predicate ClusterOk(fs: Fs, disk: Disk, c: nat) {
    forall nr :: SectorOf(fs, c) <= nr < SectorOf(fs, c) + fs.sectorsPerCluster ==> nr in disk
  }

  function ClusterData(fs: Fs, disk: Disk, c: nat): (b: Bytes)
    requires GoodFs(fs) && Sized(disk) && ClusterOk(fs, disk, c)
    ensures |b| == BytesPerCluster(fs)
  {
    hide SectorOf;
    JoinedAt(Mount(disk, None, SECTOR), SectorOf(fs, c), fs.sectorsPerCluster, 0);
    Joined(disk, SectorOf(fs, c), fs.sectorsPerCluster)
  }

  // Different clusters are in different sectors.
  lemma ClustersApart(fs: Fs, c: nat, d: nat)
    requires GoodFs(fs) && 2 <= c < d <= NrOfEntries(fs) + 1 && fs.firstDataSector + fs.nrOfBlocks < WORD
    ensures fs.firstDataSector <= SectorOf(fs, c) == fs.firstDataSector + fs.sectorsPerCluster * (c - 2)
    ensures SectorOf(fs, c) + fs.sectorsPerCluster <= SectorOf(fs, d)
    ensures SectorOf(fs, d) + fs.sectorsPerCluster <= fs.firstDataSector + fs.nrOfBlocks
  {
    var n, e := fs.sectorsPerCluster, NrOfEntries(fs);
    Scaled(n, c - 2, d - 2);
    Scaled(n, d - 2, e);
    Scaled(n, c - 2, e);
    assert n * e <= fs.nrOfBlocks;
    Unwrapped(fs, c, e);
    Unwrapped(fs, d, e);
  }

  lemma Unwrapped(fs: Fs, c: nat, e: nat)
    requires c >= 2 && fs.sectorsPerCluster * (c - 2) <= fs.sectorsPerCluster * e <= fs.nrOfBlocks
    requires 0 <= fs.sectorsPerCluster * (c - 2) && fs.firstDataSector + fs.nrOfBlocks < WORD
    ensures SectorOf(fs, c) == fs.firstDataSector + fs.sectorsPerCluster * (c - 2)
  {}

  lemma Scaled(n: nat, i: nat, j: nat)
    requires i < j
    ensures 0 <= n * i && n * i + n <= n * j
  {
    Larger(i, j, n);
    assert Times(i, n) == n * i && Times(j, n) == n * j;
  }

  // ---------------------------------------------------------------- reading a file

  // Whether the device failed, what has been written to the buffer, and the number of bytes said to be transfered.
  datatype Result = Result(failed: bool, data: Bytes, transfered: int)

  const Nothing := Result(false, [], 0)

  // The cluster in which reading starts, and its position in the file; None if the chain ends before it.
  function Skip(fs: Fs, disk: Disk, size: nat, c: nat, pos: nat, offset: nat): Option<(nat, nat)>
    requires GoodFs(fs) && Sized(disk)
    decreases offset - pos
  {
    if offset >= pos + BytesPerCluster(fs) && pos < size then
      var next := NextOf(fs, disk, c);
      if next == 0 then None else Skip(fs, disk, size, next, pos + BytesPerCluster(fs), offset)
    else
      Some((c, pos))
  }

  // How much is copied of a cluster.
  function Part(fs: Fs, pos: nat, offset: nat, length: nat): (n: nat)
    requires GoodFs(fs) && pos <= offset < pos + BytesPerCluster(fs)
    ensures 0 < length ==> 0 < n <= length && offset + n <= pos + BytesPerCluster(fs)
  {
    if length >= pos + BytesPerCluster(fs) - offset then pos + BytesPerCluster(fs) - offset else length
  }

  // Reading from cluster c, which is at pos in the file.
  function ReadOn(fs: Fs, disk: Disk, size: nat, c: nat, pos: nat, offset: nat, length: nat, data: Bytes): Result
    requires GoodFs(fs) && Sized(disk) && pos <= offset < pos + BytesPerCluster(fs) && length > 0
    decreases length
  {
    if !ClusterOk(fs, disk, c) then
      Result(true, data, |data|)
    else
      var n := Part(fs, pos, offset, length);
      var data' := data + ClusterData(fs, disk, c)[offset - pos..offset - pos + n];
      if pos >= size then Result(false, data', |data'| - (pos - size))
      else if n == length || NextOf(fs, disk, c) == 0 then Result(false, data', |data'|)
      else ReadOn(fs, disk, size, NextOf(fs, disk, c), pos + BytesPerCluster(fs), offset + n, length - n, data')
  }

  function ReadFile(fs: Fs, disk: Disk, size: nat, c: nat, offset: nat, length: nat): Result
    requires GoodFs(fs) && Sized(disk) && length > 0
  {
    var start := Skip(fs, disk, size, c, 0, offset);
    SkipWithin(fs, disk, size, c, 0, offset);
    if start.None? || start.value.1 >= size then Nothing
    else ReadOn(fs, disk, size, start.value.0, start.value.1, offset, length, [])
  }

  lemma {:induction false} SkipWithin(fs: Fs, disk: Disk, size: nat, c: nat, pos: nat, offset: nat)
    requires GoodFs(fs) && Sized(disk) && pos <= offset
    ensures
      var r := Skip(fs, disk, size, c, pos, offset);
      r.Some? ==> r.value.1 <= offset && (r.value.1 < size ==> offset < r.value.1 + BytesPerCluster(fs))
    decreases offset - pos
  {
    hide NextOf, BytesPerCluster;
    var next := NextOf(fs, disk, c);
    if offset >= pos + BytesPerCluster(fs) && pos < size && next != 0 {
      SkipWithin(fs, disk, size, next, pos + BytesPerCluster(fs), offset);
    }
  }

  // ---------------------------------------------------------------- files

  // The clusters of a file, all of them readable: each is followed by the next one.
  predicate IsChain(fs: Fs, disk: Disk, c: nat, cs: seq<nat>)
    requires GoodFs(fs) && Sized(disk)
  {
    && (cs != [] ==> cs[0] == c)
    && (forall i :: 0 <= i < |cs| ==> ClusterOk(fs, disk, cs[i]))
    && (forall i :: 0 <= i < |cs| - 1 ==> Follows(fs, disk, cs[i], cs[i + 1]))
  }

  predicate Follows(fs: Fs, disk: Disk, c: nat, d: nat)
    requires GoodFs(fs) && Sized(disk)
  {
    NextOf(fs, disk, c) == d && d != 0
  }

  predicate Ends(fs: Fs, disk: Disk, cs: seq<nat>)
    requires GoodFs(fs) && Sized(disk)
  {
    cs == [] || NextOf(fs, disk, cs[|cs| - 1]) == 0
  }

  // Clusters linked in the table on disk are such a chain, if only the last one is beyond the number of entries.
  lemma TableChain(fs: Fs, disk: Disk, es: seq<nat>, cs: seq<nat>)
    requires GoodFs(fs) && Sized(disk) && AreEntries(es) && HoldsFat(fs, disk, es) && cs != []
    requires forall i :: 0 <= i < |cs| ==> cs[i] < |es| && ClusterOk(fs, disk, cs[i])
    requires forall i :: 0 <= i < |cs| - 1 ==>
               cs[i] <= fs.nrOfBlocks / fs.sectorsPerCluster && Linked(es, cs[i], cs[i + 1])
    ensures IsChain(fs, disk, cs[0], cs)
    ensures var last := cs[|cs| - 1];
      Ends(fs, disk, cs) <==> last > fs.nrOfBlocks / fs.sectorsPerCluster || es[last] == 0 || es[last] >= 0xff0
  {
    hide HoldsFat, ClusterOk, NextOf;
    forall i | 0 <= i < |cs| - 1 ensures Follows(fs, disk, cs[i], cs[i + 1]) {
      FollowsTable(fs, disk, es, cs[i]);
    }
    FollowsTable(fs, disk, es, cs[|cs| - 1]);
  }

  predicate Linked(es: seq<nat>, c: nat, d: nat) { c < |es| && es[c] == d && 0 < d < 0xff0 }

  // Whole clusters, as many as the file needs.
  predicate Covers(fs: Fs, cs: seq<nat>, size: nat)
    requires GoodFs(fs)
  {
    At(|cs|, BytesPerCluster(fs)) >= size && (cs != [] ==> At(|cs| - 1, BytesPerCluster(fs)) < size)
  }

  function FileData(fs: Fs, disk: Disk, cs: seq<nat>): (b: Bytes)
    requires GoodFs(fs) && Sized(disk) && forall i :: 0 <= i < |cs| ==> ClusterOk(fs, disk, cs[i])
    ensures |b| == At(|cs|, BytesPerCluster(fs))
  {
    hide ClusterOk, BytesPerCluster;
    if cs == [] then []
    else
      OneMore(|cs| - 1, BytesPerCluster(fs));
      FileData(fs, disk, cs[..|cs| - 1]) + ClusterData(fs, disk, cs[|cs| - 1])
  }

  lemma {:induction false} ClusterInFile(fs: Fs, disk: Disk, cs: seq<nat>, i: nat)
    requires GoodFs(fs) && Sized(disk) && (forall k :: 0 <= k < |cs| ==> ClusterOk(fs, disk, cs[k])) && i < |cs|
    ensures
      var bpc := BytesPerCluster(fs);
      && At(i, bpc) + bpc == At(i + 1, bpc) <= |FileData(fs, disk, cs)|
      && FileData(fs, disk, cs)[At(i, bpc)..At(i, bpc) + bpc] == ClusterData(fs, disk, cs[i])
    decreases |cs|
  {
    hide ClusterOk, BytesPerCluster, At, ClusterData;
    var bpc, n := BytesPerCluster(fs), |cs| - 1;
    AtNext(i, bpc);
    AtNext(n, bpc);
    var rest := FileData(fs, disk, cs[..n]);
    if i < n {
      ClusterInFile(fs, disk, cs[..n], i);
      assert cs[..n][i] == cs[i];
      assert FileData(fs, disk, cs)[At(i, bpc)..At(i, bpc) + bpc] == rest[At(i, bpc)..At(i, bpc) + bpc];
    }
  }

  // What a read should do: the bytes of the file from offset on, as many as asked for but not beyond its size.
  function Expected(file: Bytes, size: nat, offset: nat, length: nat): Result
    requires size <= |file|
  {
    if offset >= size then Nothing
    else var end := if offset + length <= size then offset + length else size;
      Result(false, file[offset..end], end - offset)
  }

  lemma {:induction false} SkipsTo(fs: Fs, disk: Disk, cs: seq<nat>, size: nat, i: nat, offset: nat)
    requires GoodFs(fs) && Sized(disk) && cs != [] && IsChain(fs, disk, cs[0], cs) && Covers(fs, cs, size)
    requires i < |cs| && At(i, BytesPerCluster(fs)) <= offset
    ensures
      var bpc := BytesPerCluster(fs);
      var r := Skip(fs, disk, size, cs[i], At(i, bpc), offset);
      if offset >= At(|cs|, bpc) then r.None? || r.value.1 >= size
      else exists k :: i <= k < |cs| && At(k, bpc) <= offset < At(k, bpc) + bpc && r == Some((cs[k], At(k, bpc)))
    decreases |cs| - i
  {
    hide NextOf, BytesPerCluster, At, ClusterOk;
    var bpc := BytesPerCluster(fs);
    AtNext(i, bpc);
    AtGrows(i, |cs| - 1, bpc);
    AtGrows(i + 1, |cs|, bpc);
    if offset >= At(i, bpc) + bpc {
      if i + 1 < |cs| {
        assert Follows(fs, disk, cs[i], cs[i + 1]);
        SkipsTo(fs, disk, cs, size, i + 1, offset);
      }
    }
  }

  // What comes after the last cluster of a file: nothing, a cluster that cannot be read, or one that is read too; of
  // what is read with it, the bytes between the size and the end of the file's clusters are not counted.
  datatype After = AtEnd | Unreadable | Further(cluster: Bytes, uncounted: nat)

  function AfterLast(fs: Fs, disk: Disk, cs: seq<nat>, size: nat): After
    requires GoodFs(fs) && Sized(disk) && cs != [] && size <= At(|cs|, BytesPerCluster(fs))
  {
    var next := NextOf(fs, disk, cs[|cs| - 1]);
    if next == 0 then AtEnd
    else if !ClusterOk(fs, disk, next) then Unreadable
    else Further(ClusterData(fs, disk, next), At(|cs|, BytesPerCluster(fs)) - size)
  }

  // What reading from there on gives, when `data` has been read before.
  ghost predicate Reads(r: Result, then': After, file: Bytes, offset: nat, length: nat, data: Bytes)
    requires offset <= |file|
  {
    if offset + length <= |file| then r == Result(false, data + file[offset..offset + length], |data| + length)
    else
      var n := |data| + |file| - offset;
      match then'
      case AtEnd => r == Result(false, data + file[offset..], n)
      case Unreadable => r == Result(true, data + file[offset..], n)
      case Further(cluster, uncounted) =>
        var m := Least(offset + length - |file|, |cluster|);
        r == Result(false, data + file[offset..] + cluster[..m], n + m - uncounted)
  }

  function Least(x: nat, y: nat): nat { if x <= y then x else y }

  lemma ReadsJoin(r: Result, then': After, file: Bytes, offset: nat, n: nat, length: nat, data: Bytes)
    requires offset + n <= |file| && n <= length
    requires Reads(r, then', file, offset + n, length - n, data + file[offset..offset + n])
    ensures Reads(r, then', file, offset, length, data)
  {
    Joins(file, data, offset, offset + n, |file|);
    if offset + length <= |file| { Joins(file, data, offset, offset + n, offset + length); }
  }

  lemma Joins(file: Bytes, data: Bytes, a: nat, b: nat, c: nat)
    requires a <= b <= c <= |file|
    ensures data + file[a..b] + file[b..c] == data + file[a..c]
  {
    assert file[a..b] + file[b..c] == file[a..c];
  }

  lemma ReadsPart(file: Bytes, offset: nat, length: nat, data: Bytes, then': After)
    requires offset + length <= |file|
    ensures Reads(Result(false, data + file[offset..offset + length], |data + file[offset..offset + length]|), then',
                  file, offset, length, data)
  {}

  lemma ReadsEnd(file: Bytes, offset: nat, length: nat, data: Bytes)
    requires offset <= |file| < offset + length
    ensures Reads(Result(false, data + file[offset..|file|], |data + file[offset..|file|]|), AtEnd, file, offset,
                  length, data)
  {
    assert file[offset..|file|] == file[offset..];
  }

  // One step of reading.
  lemma ReadsCluster(fs: Fs, disk: Disk, size: nat, c: nat, pos: nat, offset: nat, length: nat, data: Bytes,
                     file: Bytes)
    requires GoodFs(fs) && Sized(disk) && pos <= offset < pos + BytesPerCluster(fs) <= |file| && length > 0
    requires pos < size
    requires ClusterOk(fs, disk, c) && file[pos..pos + BytesPerCluster(fs)] == ClusterData(fs, disk, c)
    ensures
      var n, r := Part(fs, pos, offset, length), ReadOn(fs, disk, size, c, pos, offset, length, data);
      var data' := data + file[offset..offset + n];
      if n == length || NextOf(fs, disk, c) == 0 then r == Result(false, data', |data'|)
      else
        && offset + n == pos + BytesPerCluster(fs)
        && r == ReadOn(fs, disk, size, NextOf(fs, disk, c), pos + BytesPerCluster(fs), offset + n, length - n, data')
  {
    hide NextOf, BytesPerCluster, ClusterOk, ClusterData, Part, ReadOn;
    var n := Part(fs, pos, offset, length);
    PartIs(fs, pos, offset, length);
    Sliced(file, pos, BytesPerCluster(fs), offset, n);
    assert ClusterData(fs, disk, c)[offset - pos..offset - pos + n] == file[offset..offset + n];
    ReadOnStep(fs, disk, size, c, pos, offset, length, data);
  }

  lemma Sliced(file: Bytes, pos: nat, bpc: nat, offset: nat, n: nat)
    requires pos <= offset && offset + n <= pos + bpc <= |file|
    ensures file[pos..pos + bpc][offset - pos..offset - pos + n] == file[offset..offset + n]
  {
    var part, whole := file[pos..pos + bpc][offset - pos..offset - pos + n], file[offset..offset + n];
    assert |part| == |whole| && forall k :: 0 <= k < n ==> part[k] == whole[k];
  }

  // What is read from cluster i on.
  lemma {:induction false} ReadsFrom(fs: Fs, disk: Disk, cs: seq<nat>, size: nat, i: nat, offset: nat, length: nat,
                                     data: Bytes)
    requires GoodFs(fs) && Sized(disk) && cs != [] && IsChain(fs, disk, cs[0], cs) && Covers(fs, cs, size)
    requires i < |cs| && length > 0
    requires At(i, BytesPerCluster(fs)) <= offset < At(i, BytesPerCluster(fs)) + BytesPerCluster(fs)
    ensures offset < At(|cs|, BytesPerCluster(fs))
    ensures Reads(ReadOn(fs, disk, size, cs[i], At(i, BytesPerCluster(fs)), offset, length, data),
                  AfterLast(fs, disk, cs, size), FileData(fs, disk, cs), offset, length, data)
    decreases |cs| - i
  {
    hide NextOf, BytesPerCluster, At, ClusterOk, ClusterData, FileData, ReadOn, Reads, Part, AfterLast;
    var bpc, file := BytesPerCluster(fs), FileData(fs, disk, cs);
    AtNext(i, bpc);
    AtGrows(i, |cs| - 1, bpc);
    AtGrows(i + 1, |cs|, bpc);
    ClusterInFile(fs, disk, cs, i);
    var pos, n := At(i, bpc), Part(fs, At(i, bpc), offset, length);
    ReadsCluster(fs, disk, size, cs[i], pos, offset, length, data, file);
    PartIs(fs, pos, offset, length);
    var data' := data + file[offset..offset + n];
    if i + 1 < |cs| { assert Follows(fs, disk, cs[i], cs[i + 1]); }
    if n == length {
      ReadsPart(file, offset, n, data, AfterLast(fs, disk, cs, size));
    } else if NextOf(fs, disk, cs[i]) == 0 {
      ReadsEnd(file, offset, length, data);
      AfterIs(fs, disk, cs, size);
    } else if i + 1 < |cs| {
      ReadsFrom(fs, disk, cs, size, i + 1, offset + n, length - n, data');
      ReadsJoin(ReadOn(fs, disk, size, cs[i], pos, offset, length, data), AfterLast(fs, disk, cs, size), file, offset,
                n, length, data);
    } else {
      ReadsMore(fs, disk, size, NextOf(fs, disk, cs[i]), pos + bpc, length - n, data');
      AfterIs(fs, disk, cs, size);
      ReadsBeyond(ReadOn(fs, disk, size, cs[i], pos, offset, length, data), AfterLast(fs, disk, cs, size), file, offset,
                  length, data);
    }
  }

  lemma PartIs(fs: Fs, pos: nat, offset: nat, length: nat)
    requires GoodFs(fs) && pos <= offset < pos + BytesPerCluster(fs)
    ensures var n := Part(fs, pos, offset, length);
      n == length || (n < length && offset + n == pos + BytesPerCluster(fs))
  {}

  lemma AfterIs(fs: Fs, disk: Disk, cs: seq<nat>, size: nat)
    requires GoodFs(fs) && Sized(disk) && cs != [] && size <= At(|cs|, BytesPerCluster(fs))
    ensures
      var next, then' := NextOf(fs, disk, cs[|cs| - 1]), AfterLast(fs, disk, cs, size);
      && (next == 0 <==> then' == AtEnd)
      && (next != 0 && !ClusterOk(fs, disk, next) ==> then' == Unreadable)
      && (next != 0 && ClusterOk(fs, disk, next) ==>
            then' == Further(ClusterData(fs, disk, next), At(|cs|, BytesPerCluster(fs)) - size))
  {
    hide NextOf, BytesPerCluster, At, ClusterOk, ClusterData;
  }

  lemma ReadsBeyond(r: Result, then': After, file: Bytes, offset: nat, length: nat, data: Bytes)
    requires offset <= |file| < offset + length && then' != AtEnd
    requires var data', m := data + file[offset..|file|], offset + length - |file|;
      match then'
      case Further(cluster, uncounted) =>
        r == Result(false, data' + cluster[..Least(m, |cluster|)], |data'| + Least(m, |cluster|) - uncounted)
      case _ => r == Result(true, data', |data'|)
    ensures Reads(r, then', file, offset, length, data)
  {
    assert file[offset..|file|] == file[offset..];
  }

  // A cluster beyond the ones the file needs is read too.
  lemma ReadsMore(fs: Fs, disk: Disk, size: nat, c: nat, pos: nat, length: nat, data: Bytes)
    requires GoodFs(fs) && Sized(disk) && length > 0 && pos >= size
    ensures BytesPerCluster(fs) > 0
    ensures
      var r, m := ReadOn(fs, disk, size, c, pos, pos, length, data), Least(length, BytesPerCluster(fs));
      if !ClusterOk(fs, disk, c) then r == Result(true, data, |data|)
      else r == Result(false, data + ClusterData(fs, disk, c)[..m], |data| + m - (pos - size))
  {
    hide NextOf, BytesPerCluster, ClusterOk, ClusterData;
    assert Part(fs, pos, pos, length) == Least(length, BytesPerCluster(fs));
  }

  // What every read gives. It ends with the last cluster of the file, or the one after it.
  lemma ReadGives(fs: Fs, disk: Disk, c: nat, cs: seq<nat>, size: nat, offset: nat, length: nat)
    requires GoodFs(fs) && Sized(disk) && IsChain(fs, disk, c, cs) && Covers(fs, cs, size) && length > 0
    ensures
      var file, r := FileData(fs, disk, cs), ReadFile(fs, disk, size, c, offset, length);
      if offset >= |file| then r == Nothing
      else cs != [] && Reads(r, AfterLast(fs, disk, cs, size), file, offset, length, [])
  {
    hide NextOf, BytesPerCluster, At, ClusterOk, ClusterData, FileData, Skip, ReadOn, Reads, AfterLast;
    var bpc := BytesPerCluster(fs);
    AtNext(0, bpc);
    if cs == [] {
      SkipNothing(fs, disk, c, offset);
      assert ReadFile(fs, disk, size, c, offset, length) == Nothing;
    } else {
      SkipsTo(fs, disk, cs, size, 0, offset);
      if offset < At(|cs|, bpc) {
        var k :| 0 <= k < |cs| && At(k, bpc) <= offset < At(k, bpc) + bpc
              && Skip(fs, disk, size, c, 0, offset) == Some((cs[k], At(k, bpc)));
        AtGrows(k, |cs| - 1, bpc);
        ReadsFrom(fs, disk, cs, size, k, offset, length, []);
      } else {
        assert ReadFile(fs, disk, size, c, offset, length) == Nothing;
      }
    }
  }

  // A read is right exactly if it does not go beyond the file's size, starts beyond its last cluster, or the
  // file fills its last cluster and the chain ends there.
  lemma ReadIsRight(fs: Fs, disk: Disk, c: nat, cs: seq<nat>, size: nat, offset: nat, length: nat)
    requires GoodFs(fs) && Sized(disk) && IsChain(fs, disk, c, cs) && Covers(fs, cs, size) && length > 0
    ensures ReadFile(fs, disk, size, c, offset, length) == Expected(FileData(fs, disk, cs), size, offset, length) <==>
            || offset + length <= size
            || offset >= At(|cs|, BytesPerCluster(fs))
            || (size == At(|cs|, BytesPerCluster(fs)) && Ends(fs, disk, cs))
  {
    hide NextOf, BytesPerCluster, At, ClusterOk, ClusterData, FileData, ReadFile, Reads, Expected, AfterLast;
    var bpc, file := BytesPerCluster(fs), FileData(fs, disk, cs);
    AtNext(0, bpc);
    BeyondSize(file, size, offset, length);
    ReadGives(fs, disk, c, cs, size, offset, length);
    if offset < |file| {
      AfterIs(fs, disk, cs, size);
      RightOrNot(ReadFile(fs, disk, size, c, offset, length), AfterLast(fs, disk, cs, size), bpc, file, size, offset,
                 length);
    }
  }

  lemma BeyondSize(file: Bytes, size: nat, offset: nat, length: nat)
    requires size <= |file|
    ensures offset >= size ==> Expected(file, size, offset, length) == Nothing
  {}

  lemma RightOrNot(r: Result, then': After, bpc: nat, file: Bytes, size: nat, offset: nat, length: nat)
    requires size <= |file| && offset < |file| && length > 0 && Reads(r, then', file, offset, length, [])
    requires then'.Further? ==> |then'.cluster| == bpc > 0
    ensures r == Expected(file, size, offset, length) <==>
            offset + length <= size || (size == |file| && then' == AtEnd)
  {
    if offset + length <= |file| {
      assert r == Result(false, file[offset..offset + length], length);
    } else if then' == AtEnd {
      assert r == Result(false, file[offset..], |file| - offset);
    } else if then'.Further? {
      assert |r.data| > |file| - offset;
    }
  }

  lemma SkipNothing(fs: Fs, disk: Disk, c: nat, offset: nat)
    requires GoodFs(fs) && Sized(disk)
    ensures Skip(fs, disk, 0, c, 0, offset) == Some((c, 0))
  {}

  // ---------------------------------------------------------------- msdosfs.c

  // The mounted device of the filesystem.
  ghost predicate Ready(cache: Cache, mi: nat, fs: Fs)
    reads cache, cache.chains
  {
    && cache.Valid() && GoodFs(fs) && mi in cache.mounts && cache.mounts[mi].blocksize == SECTOR
    && Healthy(cache.mounts[mi])
  }

  lemma ReadySized(cache: Cache, mi: nat, fs: Fs)
    requires Ready(cache, mi, fs)
    ensures Sized(cache.mounts[mi].blocks)
  {
    assert GoodMount(cache.mounts[mi]);
  }

  method ReadSector(cache: Cache, mi: nat, fs: Fs, nr: nat, buf: array<Byte>) returns (ok: bool)
    requires Ready(cache, mi, fs) && buf.Length == SECTOR
    modifies cache`asked, cache.chains, buf
    ensures Ready(cache, mi, fs) && (ok <==> nr in cache.mounts[mi].blocks)
    ensures ok ==> buf[..] == cache.mounts[mi].blocks[nr]
  {
    hide Healthy, Joined;
    ghost var blocks := cache.mounts[mi].blocks;
    One(SECTOR);
    var res := cache.BlockRead(mi, nr, 1, buf);
    ok := res == 0;
    if nr in blocks { JoinedOne(blocks, nr); }
    if ok {
      assert InTip(Tip(0, nr, 1), nr);
      assert buf[..] == blocks[nr];
    }
  }

  lemma One(size: nat)
    ensures At(1, size) == size
  {}

  lemma JoinedOne(blocks: map<nat, Bytes>, nr: nat)
    requires nr in blocks
    ensures Joined(blocks, nr, 1) == blocks[nr]
  {
    assert Joined(blocks, nr, 0) == [];
  }

  // The two bytes of an entry are in one sector or at the ends of two.
  lemma EntryAt(fs: Fs, disk: Disk, k: nat)
    requires Sized(disk)
    ensures k % SECTOR != 511 ==> (FatHas(fs, disk, k + 1) <==> FatHas(fs, disk, k))
    ensures FatHas(fs, disk, k) && k % SECTOR != 511 ==>
              FatByte(fs, disk, k + 1) == disk[fs.reservedSectors + k / SECTOR][k % SECTOR + 1]
    ensures FatHas(fs, disk, k + 1) && k % SECTOR == 511 ==>
              FatByte(fs, disk, k + 1) == disk[fs.reservedSectors + (k + 1) / SECTOR][0]
  {
    if k % SECTOR == 511 {
      assert (k + 1) % SECTOR == 0;
    } else {
      assert (k + 1) / SECTOR == k / SECTOR && (k + 1) % SECTOR == k % SECTOR + 1;
    }
  }

  // The two bytes at ofs in the FAT, as a word; None if they cannot be read.
  method ReadWord(cache: Cache, mi: nat, fs: Fs, ofs: nat) returns (word: Option<nat>)
    requires Ready(cache, mi, fs)
    modifies cache`asked, cache.chains
    ensures Ready(cache, mi, fs) && Sized(cache.mounts[mi].blocks)
    ensures
      var disk := cache.mounts[mi].blocks;
      if FatHas(fs, disk, ofs) && FatHas(fs, disk, ofs + 1)
      then word == Some(FatByte(fs, disk, ofs) as nat + FatByte(fs, disk, ofs + 1) as nat * 256)
      else word.None?
  {
    hide Ready;
    ReadyFs(cache, mi, fs);
    ReadySized(cache, mi, fs);
    EntryAt(fs, cache.mounts[mi].blocks, ofs);
    var buf := new Byte[SECTOR];
    var fatsector := fs.reservedSectors;
    var ok := ReadSector(cache, mi, fs, fatsector + ofs / SECTOR, buf);
    if !ok { return None; }
    var low, high := buf[ofs % SECTOR], 0;
    if ofs % SECTOR == 511 {
      ok := ReadSector(cache, mi, fs, fatsector + (ofs + 1) / SECTOR, buf);
      if !ok { return None; }
      high := buf[0];
    } else {
      high := buf[ofs % SECTOR + 1];
    }
    word := Some(low as nat + high as nat * 256);
  }

  // msdosfs_next_cluster
  method NextCluster(cache: Cache, mi: nat, fs: Fs, cluster: nat) returns (next: nat)
    requires Ready(cache, mi, fs)
    modifies cache`asked, cache.chains
    ensures Ready(cache, mi, fs) && Sized(cache.mounts[mi].blocks)
    ensures next == NextOf(fs, cache.mounts[mi].blocks, cluster)
    ensures AsInTable(fs, cache.mounts[mi].blocks, cluster, next)
  {
    hide Ready, FatHas, FatByte, AsInTable;
    ReadyFs(cache, mi, fs);
    ReadySized(cache, mi, fs);
    FollowsAny(fs, cache.mounts[mi].blocks, cluster);
    if cluster > fs.nrOfBlocks / fs.sectorsPerCluster { return 0; }
    var word := ReadWord(cache, mi, fs, 3 * cluster / 2);
    if word.None? { return 0; }
    var newCluster := word.value;
    if cluster % 2 == 1 { newCluster := newCluster / 16; } else { newCluster := newCluster % 0x1000; }
    if newCluster >= 0xff0 { return 0; }
    return newCluster;
  }

  lemma ReadyFs(cache: Cache, mi: nat, fs: Fs)
    requires Ready(cache, mi, fs)
    ensures GoodFs(fs) && mi in cache.mounts
  {}

  // The first loop of msdosfs_read.
  method SkipClusters(cache: Cache, mi: nat, fs: Fs, size: nat, ino: nat, offset: nat)
    returns (start: Option<(nat, nat)>)
    requires Ready(cache, mi, fs)
    modifies cache`asked, cache.chains
    ensures Ready(cache, mi, fs) && Sized(cache.mounts[mi].blocks)
    ensures start == Skip(fs, cache.mounts[mi].blocks, size, ino, 0, offset)
  {
    hide Ready, NextOf, BytesPerCluster, AsInTable;
    ReadyFs(cache, mi, fs);
    ReadySized(cache, mi, fs);
    ghost var disk := cache.mounts[mi].blocks;
    var bytesPerCluster := BytesPerCluster(fs);
    var cluster, pos := ino, 0;
    while offset >= pos + bytesPerCluster && pos < size
      invariant Ready(cache, mi, fs)
                && Skip(fs, disk, size, ino, 0, offset) == Skip(fs, disk, size, cluster, pos, offset)
      decreases offset - pos
    {
      cluster := NextCluster(cache, mi, fs, cluster);
      if cluster == 0 { return None; }
      pos := pos + bytesPerCluster;
    }
    start := Some((cluster, pos));
  }

  method ReadCluster(cache: Cache, mi: nat, fs: Fs, cluster: nat, tmp: array<Byte>) returns (res: int)
    requires Ready(cache, mi, fs) && tmp.Length == BytesPerCluster(fs)
    modifies cache`asked, cache.chains, tmp
    ensures Ready(cache, mi, fs) && Sized(cache.mounts[mi].blocks)
    ensures res == 0 <==> ClusterOk(fs, cache.mounts[mi].blocks, cluster)
    ensures res == 0 ==> tmp[..] == ClusterData(fs, cache.mounts[mi].blocks, cluster)
  {
    hide Healthy, Joined, SectorOf, At;
    ReadySized(cache, mi, fs);
    var sector := SectorOf(fs, cluster);
    res := cache.BlockRead(mi, sector, fs.sectorsPerCluster, tmp);
  }

  // msdosfs_read
  method Read(cache: Cache, mi: nat, fs: Fs, size: nat, ino: nat, offset: nat, buffer: array<Byte>, length: int)
    returns (res: int, transfered: int)
    requires Ready(cache, mi, fs) && length <= buffer.Length && offset + length + BytesPerCluster(fs) < WORD
    modifies cache`asked, cache.chains, buffer
    ensures Ready(cache, mi, fs) && Sized(cache.mounts[mi].blocks)
    ensures length < 1 ==> res == 22 && buffer[..] == old(buffer[..])
    ensures length >= 1 ==>
      var r := ReadFile(fs, cache.mounts[mi].blocks, size, ino, offset, length);
      && (res != 0 <==> r.failed) && transfered == r.transfered
      && |r.data| <= length && Written(buffer[..], r.data, old(buffer[..]))
  {
    hide Ready, NextOf, BytesPerCluster, ClusterOk, ClusterData, Part, ReadOn;
    ReadyFs(cache, mi, fs);
    ReadySized(cache, mi, fs);
    transfered := 0;
    if length < 1 { return EINVAL, 0; }
    var start := SkipClusters(cache, mi, fs, size, ino, offset);
    if start.None? || start.value.1 >= size { return 0, 0; }
    var cluster, pos := start.value.0, start.value.1;
    SkipWithin(fs, cache.mounts[mi].blocks, size, ino, 0, offset);
    res, transfered := ReadClusters(cache, mi, fs, size, cluster, pos, offset, buffer, length);
  }

  // Reads a cluster and copies what is wanted of it.
  method ReadPart(cache: Cache, mi: nat, fs: Fs, cluster: nat, pos: nat, offset: nat, length: nat, buffer: array<Byte>,
                  done: nat, tmp: array<Byte>)
    returns (res: int, cplen: nat)
    requires Ready(cache, mi, fs) && tmp.Length == BytesPerCluster(fs) && tmp != buffer
    requires pos <= offset < pos + BytesPerCluster(fs) && done + length <= buffer.Length
    modifies cache`asked, cache.chains, buffer, tmp
    ensures Ready(cache, mi, fs) && Sized(cache.mounts[mi].blocks)
    ensures res == 0 <==> ClusterOk(fs, cache.mounts[mi].blocks, cluster)
    ensures cplen == Part(fs, pos, offset, length) <= length
    ensures res != 0 ==> buffer[..] == old(buffer[..])
    ensures res == 0 ==> Replaced(buffer[..], old(buffer[..]), done,
                                  Piece(fs, cache.mounts[mi].blocks, cluster, pos, offset, length))
  {
    hide Ready, NextOf, BytesPerCluster, ClusterOk, ClusterData;
    var cpofs := offset - pos;
    cplen := if length >= tmp.Length - cpofs then tmp.Length - cpofs else length;
    res := ReadCluster(cache, mi, fs, cluster, tmp);
    if res == 0 { Copy(buffer, done, tmp[cpofs..cpofs + cplen]); }
  }

  function Piece(fs: Fs, disk: Disk, c: nat, pos: nat, offset: nat, length: nat): (b: Bytes)
    requires GoodFs(fs) && Sized(disk) && ClusterOk(fs, disk, c) && pos <= offset < pos + BytesPerCluster(fs)
    ensures |b| == Part(fs, pos, offset, length)
  {
    hide BytesPerCluster, ClusterOk, ClusterData;
    ClusterData(fs, disk, c)[offset - pos..offset - pos + Part(fs, pos, offset, length)]
  }

  lemma ReadOnStep(fs: Fs, disk: Disk, size: nat, c: nat, pos: nat, offset: nat, length: nat, data: Bytes)
    requires GoodFs(fs) && Sized(disk) && pos <= offset < pos + BytesPerCluster(fs) && length > 0
    ensures
      var r, n := ReadOn(fs, disk, size, c, pos, offset, length, data), Part(fs, pos, offset, length);
      && 0 < n <= length
      && if !ClusterOk(fs, disk, c) then r == Result(true, data, |data|)
         else
           var data' := data + Piece(fs, disk, c, pos, offset, length);
           && |data'| == |data| + n
           && if pos >= size then r == Result(false, data', |data'| - (pos - size))
              else if n == length || NextOf(fs, disk, c) == 0 then r == Result(false, data', |data'|)
              else offset + n == pos + BytesPerCluster(fs) &&
                   r == ReadOn(fs, disk, size, NextOf(fs, disk, c), pos + BytesPerCluster(fs), offset + n,
                               length - n, data')
  {
    hide NextOf, BytesPerCluster, ClusterOk, ClusterData;
  }

  predicate Replaced(next: Bytes, now: Bytes, at: nat, piece: Bytes) {
    at + |piece| <= |now| && next == now[..at] + piece + now[at + |piece|..]
  }

  // A buffer begins with what has been read and is as it was after that.
  predicate Written(now: Bytes, data: Bytes, was: Bytes) {
    |data| <= |was| && now == data + was[|data|..]
  }

  lemma NoneWritten(was: Bytes)
    ensures Written(was, [], was)
  {}

  lemma Overwritten(data: Bytes, piece: Bytes, was: Bytes, now: Bytes, next: Bytes)
    requires Written(now, data, was) && Replaced(next, now, |data|, piece)
    ensures Written(next, data + piece, was)
  {
    assert now[..|data|] == data && now[|data| + |piece|..] == was[|data + piece|..];
  }

  // The second loop of msdosfs_read.
  method ReadClusters(cache: Cache, mi: nat, fs: Fs, size: nat, first: nat, firstPos: nat, offset: nat,
                      buffer: array<Byte>, length: nat)
    returns (res: int, transfered: int)
    requires Ready(cache, mi, fs) && 0 < length <= buffer.Length
    requires firstPos <= offset < firstPos + BytesPerCluster(fs)
    modifies cache`asked, cache.chains, buffer
    ensures Ready(cache, mi, fs) && Sized(cache.mounts[mi].blocks)
    ensures
      var r := ReadOn(fs, cache.mounts[mi].blocks, size, first, firstPos, offset, length, []);
      && (res != 0 <==> r.failed) && transfered == r.transfered
      && |r.data| <= length && Written(buffer[..], r.data, old(buffer[..]))
  {
    hide Ready, NextOf, BytesPerCluster, ClusterOk, ClusterData, Part, ReadOn, Piece, Written, Replaced, AsInTable;
    NoneWritten(buffer[..]);
    ReadyFs(cache, mi, fs);
    ReadySized(cache, mi, fs);
    ghost var disk, data: Bytes, was := cache.mounts[mi].blocks, [], buffer[..];
    var tmp := new Byte[BytesPerCluster(fs)];
    var cluster: nat, pos: nat := first, firstPos;
    var at: nat, left: nat, done: nat := offset, length, 0;
    while done < length
      invariant Ready(cache, mi, fs) && 0 < left && done == |data| == length - left
      invariant pos <= at < pos + BytesPerCluster(fs)
      invariant Written(buffer[..], data, was)
      invariant ReadOn(fs, disk, size, first, firstPos, offset, length, []) ==
                ReadOn(fs, disk, size, cluster, pos, at, left, data)
      decreases left
    {
      ReadOnStep(fs, disk, size, cluster, pos, at, left, data);
      ghost var now := buffer[..];
      var cplen;
      res, cplen := ReadPart(cache, mi, fs, cluster, pos, at, left, buffer, done, tmp);
      if res != 0 { return res, done; }
      ghost var piece := Piece(fs, disk, cluster, pos, at, left);
      Overwritten(data, piece, was, now, buffer[..]);
      data := data + piece;
      left, at, done := left - cplen, at + cplen, done + cplen;
      if pos >= size { return 0, done - (pos - size); }
      if done >= length { return 0, done; }
      cluster := NextCluster(cache, mi, fs, cluster);
      if cluster == 0 { return 0, done; }
      pos := pos + BytesPerCluster(fs);
    }
    assert false;
  }
}
