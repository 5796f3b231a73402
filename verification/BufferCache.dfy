/** vfs/vfs_block.c: reading blocks through the buffer cache. */
module BufferCache {
  import opened Basics
  import opened VmObjects

  const HASHSIZE := 512          // BCACHE_HASHSIZE
  const WORD := 0x1_0000_0000
  const EIO := 5
  const EINVAL := 22

  type Bytes = seq<Byte>

  // What a device's readtip() answers.
  datatype Tip = Tip(res: int, start: nat, count: nat)

  // A mounted device: `blocks` are the ones it can read; readtip is None where the driver has none.
  datatype Mount = Mount(blocks: map<nat, Bytes>, readtip: Option<nat -> Tip>, blocksize: nat)

  // Mountinstances by their address.
  type Mounts = map<nat, Mount>

  // A struct bcache_entry: nothing of it changes after its creation.
  datatype CacheEntry = CacheEntry(hash: nat, mi: nat, blocknr: nat, buffer: Bytes)

  type Chains = seq<seq<CacheEntry>>

  function TipOf(m: Mount, nr: nat): Tip {
    match m.readtip
    case None => Tip(0, nr, 1)
    case Some(f) => f(nr)
  }

  predicate TipBad(t: Tip) { t.count < 1 || t.res > 0 }

  predicate InTip(t: Tip, nr: nat) { t.start <= nr < t.start + t.count }

  // A tip covers the wanted block, and what it asks for can be allocated.
  ghost predicate GoodMount(m: Mount) {
    && (forall nr :: nr in m.blocks ==> |m.blocks[nr]| == m.blocksize)
    && (forall nr: nat :: GoodTip(m, nr))
  }

  predicate GoodTip(m: Mount, nr: nat) {
    var t := TipOf(m, nr);
    !TipBad(t) ==> InTip(t, nr) && t.count < WORD && t.count * m.blocksize < WORD
  }

  ghost predicate GoodMounts(mounts: Mounts) { forall mi :: mi in mounts ==> GoodMount(mounts[mi]) }

  // The device can read all blocks of the tip.
  predicate TipReadable(m: Mount, t: Tip) { forall nr :: t.start <= nr < t.start + t.count ==> nr in m.blocks }

  // buffercache_hash: the address is signed when it is shifted.
  function Hash(mi: nat, nr: nat): (h: nat)
    ensures h < WORD
  {
    var a := if mi % WORD < 0x8000_0000 then mi % WORD else mi % WORD - WORD;
    (a / 4096 + nr) % WORD
  }

  lemma HashDiffers(mi: nat, start: nat, i: nat)
    requires 0 < i < WORD
    ensures Hash(mi, start + i) == (Hash(mi, start) + i) % WORD != Hash(mi, start)
  {
    var a := (if mi % WORD < 0x8000_0000 then mi % WORD else mi % WORD - WORD) / 4096 + start;
    assert (a + i) % WORD != a % WORD;
  }

  // ---------------------------------------------------------------- the chains

  predicate Matches(e: CacheEntry, mi: nat, hash: nat, nr: nat) { e.hash == hash && e.blocknr == nr && e.mi == mi }

  predicate Holds(chain: seq<CacheEntry>, mi: nat, hash: nat, nr: nat) {
    exists j :: 0 <= j < |chain| && Matches(chain[j], mi, hash, nr)
  }

  predicate Cached(chains: Chains, mi: nat, nr: nat)
    requires |chains| == HASHSIZE
  {
    Holds(chains[Hash(mi, nr) % HASHSIZE], mi, Hash(mi, nr), nr)
  }

  // Every entry is in the chain of its hash and holds what the device holds.
  predicate Faithful(mounts: Mounts, chains: Chains) {
    |chains| == HASHSIZE && forall c, j :: 0 <= c < HASHSIZE && 0 <= j < |chains[c]| ==>
        GoodEntry(mounts, chains[c][j], c)
  }

  predicate GoodEntry(mounts: Mounts, e: CacheEntry, c: int) {
    && e.hash == Hash(e.mi, e.blocknr) && c == e.hash % HASHSIZE
    && e.mi in mounts && e.blocknr in mounts[e.mi].blocks && e.buffer == mounts[e.mi].blocks[e.blocknr]
  }

  // How many entries a block has.
  function Copies(chain: seq<CacheEntry>, mi: nat, nr: nat): nat {
    if chain == [] then 0
    else (if chain[0].mi == mi && chain[0].blocknr == nr then 1 else 0) + Copies(chain[1..], mi, nr)
  }

  ghost function CopiesOf(chains: Chains, mi: nat, nr: nat): nat
    requires |chains| == HASHSIZE
  {
    Copies(chains[Hash(mi, nr) % HASHSIZE], mi, nr)
  }

  lemma {:induction false} NoCopies(mounts: Mounts, chain: seq<CacheEntry>, mi: nat, nr: nat, c: int)
    requires forall j :: 0 <= j < |chain| ==> GoodEntry(mounts, chain[j], c)
    ensures Copies(chain, mi, nr) > 0 <==> Holds(chain, mi, Hash(mi, nr), nr)
  {
    hide Hash;
    if chain != [] {
      NoCopies(mounts, chain[1..], mi, nr, c);
      assert forall j :: 0 <= j < |chain| - 1 ==> chain[1..][j] == chain[j + 1];
      if Holds(chain, mi, Hash(mi, nr), nr) && !Matches(chain[0], mi, Hash(mi, nr), nr) {
        var j :| 0 <= j < |chain| && Matches(chain[j], mi, Hash(mi, nr), nr);
        assert Matches(chain[1..][j - 1], mi, Hash(mi, nr), nr);
      }
      assert GoodEntry(mounts, chain[0], c);
    }
  }

  lemma CopiesCached(mounts: Mounts, chains: Chains, mi: nat, nr: nat)
    requires Faithful(mounts, chains)
    ensures CopiesOf(chains, mi, nr) > 0 <==> Cached(chains, mi, nr)
  {
    hide Hash;
    var c := Hash(mi, nr) % HASHSIZE;
    NoCopies(mounts, chains[c], mi, nr, c);
  }

  // ---------------------------------------------------------------- adding what has been read

  // One round of the loop that adds blocks: it looks for an entry of block `start` with the hash of block start + i.
  function Add(chains: Chains, mi: nat, start: nat, i: nat, block: Bytes): (chains': Chains)
    requires |chains| == HASHSIZE
    ensures |chains'| == HASHSIZE
  {
    var hash := Hash(mi, start + i);
    var c := hash % HASHSIZE;
    if Holds(chains[c], mi, hash, start) then chains
    else chains[c := [CacheEntry(hash, mi, start + i, block)] + chains[c]]
  }

  // The first n of the blocks.
  function AddAll(chains: Chains, mi: nat, start: nat, n: nat, blocks: map<nat, Bytes>): (chains': Chains)
    requires |chains| == HASHSIZE && forall nr :: start <= nr < start + n ==> nr in blocks
    ensures |chains'| == HASHSIZE
  {
    if n == 0 then chains else Add(AddAll(chains, mi, start, n - 1, blocks), mi, start, n - 1, blocks[start + n - 1])
  }

  // For the first block the search is right; for the others it never finds anything.
  lemma SearchFinds(mounts: Mounts, chains: Chains, mi: nat, start: nat, i: nat)
    requires Faithful(mounts, chains) && i < WORD
    ensures var hash := Hash(mi, start + i);
      Holds(chains[hash % HASHSIZE], mi, hash, start) <==> i == 0 && Cached(chains, mi, start)
  {
    if i > 0 { HashDiffers(mi, start, i); }
    hide Hash;
  }

  lemma AddFaithful(mounts: Mounts, chains: Chains, mi: nat, start: nat, i: nat, block: Bytes)
    requires Faithful(mounts, chains) && mi in mounts
    requires start + i in mounts[mi].blocks && block == mounts[mi].blocks[start + i]
    ensures Faithful(mounts, Add(chains, mi, start, i, block))
  {
    hide Hash;
    var chains' := Add(chains, mi, start, i, block);
    forall c, j | 0 <= c < HASHSIZE && 0 <= j < |chains'[c]| ensures GoodEntry(mounts, chains'[c][j], c) {
      if chains'[c] != chains[c] && j > 0 { assert chains'[c][j] == chains[c][j - 1]; }
    }
  }

  // A block gets one more entry, unless it is the first one of the tip and has one.
  lemma AddCopies(mounts: Mounts, chains: Chains, mi: nat, start: nat, i: nat, block: Bytes, mi': nat, nr': nat)
    requires Faithful(mounts, chains) && i < WORD
    ensures CopiesOf(Add(chains, mi, start, i, block), mi', nr') == CopiesOf(chains, mi', nr') +
              if mi' == mi && nr' == start + i && !(i == 0 && Cached(chains, mi, start)) then 1 else 0
  {
    hide Hash;
    SearchFinds(mounts, chains, mi, start, i);
    var chains' := Add(chains, mi, start, i, block);
    var c := Hash(mi', nr') % HASHSIZE;
    if chains'[c] != chains[c] {
      assert chains'[c][1..] == chains[c];
    }
  }

  lemma {:induction false} AddAllCopies(mounts: Mounts, chains: Chains, mi: nat, start: nat, n: nat, mi': nat, nr': nat)
    requires Faithful(mounts, chains) && mi in mounts && n <= WORD
    requires forall nr :: start <= nr < start + n ==> nr in mounts[mi].blocks
    ensures Faithful(mounts, AddAll(chains, mi, start, n, mounts[mi].blocks))
    ensures CopiesOf(AddAll(chains, mi, start, n, mounts[mi].blocks), mi', nr') == CopiesOf(chains, mi', nr') +
              if mi' == mi && start <= nr' < start + n && !(nr' == start && Cached(chains, mi, start)) then 1 else 0
  {
    hide Hash, CopiesOf, Cached, Add;
    if n > 0 {
      var rest := AddAll(chains, mi, start, n - 1, mounts[mi].blocks);
      var block := mounts[mi].blocks[start + n - 1];
      AddAllCopies(mounts, chains, mi, start, n - 1, mi', nr');
      AddFaithful(mounts, rest, mi, start, n - 1, block);
      AddCopies(mounts, rest, mi, start, n - 1, block, mi', nr');
    }
  }

  // Afterwards exactly the blocks of the tip have been added to those that are cached.
  lemma AddAllCached(mounts: Mounts, chains: Chains, mi: nat, start: nat, n: nat, mi': nat, nr': nat)
    requires Faithful(mounts, chains) && mi in mounts && n <= WORD
    requires forall nr :: start <= nr < start + n ==> nr in mounts[mi].blocks
    ensures Faithful(mounts, AddAll(chains, mi, start, n, mounts[mi].blocks))
    ensures Cached(AddAll(chains, mi, start, n, mounts[mi].blocks), mi', nr') <==>
            Cached(chains, mi', nr') || (mi' == mi && start <= nr' < start + n)
  {
    AddAllCopies(mounts, chains, mi, start, n, mi', nr');
    hide Faithful, CopiesOf, Cached, AddAll;
    CopiesCached(mounts, chains, mi', nr');
    CopiesCached(mounts, AddAll(chains, mi, start, n, mounts[mi].blocks), mi', nr');
  }

  // ---------------------------------------------------------------- looking a block up

  datatype Outcome = Hit | Refused | Failed(start: nat, count: nat) | Fetched(start: nat, count: nat)

  ghost function OutcomeOf(mounts: Mounts, chains: Chains, mi: nat, nr: nat): Outcome
    requires |chains| == HASHSIZE && mi in mounts
  {
    var t := TipOf(mounts[mi], nr);
    if Cached(chains, mi, nr) then Hit
    else if TipBad(t) then Refused
    else if !TipReadable(mounts[mi], t) then Failed(t.start, t.count)
    else Fetched(t.start, t.count)
  }

  ghost function Lookup(mounts: Mounts, chains: Chains, mi: nat, nr: nat): (chains': Chains)
    requires |chains| == HASHSIZE && mi in mounts
    ensures |chains'| == HASHSIZE
  {
    match OutcomeOf(mounts, chains, mi, nr)
    case Fetched(start, count) =>
      assert forall k :: start <= k < start + count ==> InTip(TipOf(mounts[mi], nr), k);
      AddAll(chains, mi, start, count, mounts[mi].blocks)
    case _ => chains
  }

  // Some entry is the block's.
  predicate Present(chains: Chains, mi: nat, nr: nat) {
    exists c, j :: 0 <= c < |chains| && 0 <= j < |chains[c]| && chains[c][j].mi == mi && chains[c][j].blocknr == nr
  }

  lemma PresentIsCached(mounts: Mounts, chains: Chains, mi: nat, nr: nat)
    requires Faithful(mounts, chains)
    ensures Cached(chains, mi, nr) <==> Present(chains, mi, nr)
  {
    hide Hash;
    if Present(chains, mi, nr) {
      var c, j :| 0 <= c < |chains| && 0 <= j < |chains[c]| && chains[c][j].mi == mi && chains[c][j].blocknr == nr;
      assert GoodEntry(mounts, chains[c][j], c);
      assert Matches(chains[c][j], mi, Hash(mi, nr), nr);
    }
    if Cached(chains, mi, nr) {
      var j :| 0 <= j < |chains[Hash(mi, nr) % HASHSIZE]|
            && Matches(chains[Hash(mi, nr) % HASHSIZE][j], mi, Hash(mi, nr), nr);
    }
  }

  // What is asked of the device: nothing for a block that is in the cache, else what the tip says, and this block alone
  // if the device gives no tips.
  ghost predicate Asks(mounts: Mounts, chains: Chains, mi: nat, nr: nat, o: Outcome)
    requires mi in mounts
  {
    if Present(chains, mi, nr) then o == Hit
    else match mounts[mi].readtip
      case None => o == if nr in mounts[mi].blocks then Fetched(nr, 1) else Failed(nr, 1)
      case Some(readtip) =>
        var tip := readtip(nr);
        if tip.res > 0 || tip.count == 0 then o == Refused
        else if forall k :: tip.start <= k < tip.start + tip.count ==> k in mounts[mi].blocks
        then o == Fetched(tip.start, tip.count) else o == Failed(tip.start, tip.count)
  }

  lemma OutcomeAsks(mounts: Mounts, chains: Chains, mi: nat, nr: nat)
    requires Faithful(mounts, chains) && mi in mounts
    ensures Asks(mounts, chains, mi, nr, OutcomeOf(mounts, chains, mi, nr))
  {
    hide Cached, Present;
    PresentIsCached(mounts, chains, mi, nr);
  }

  lemma HitIfPresent(mounts: Mounts, chains: Chains, mi: nat, nr: nat)
    requires Faithful(mounts, chains) && mi in mounts
    ensures Present(chains, mi, nr) ==> OutcomeOf(mounts, chains, mi, nr) == Hit
  {
    OutcomeAsks(mounts, chains, mi, nr);
    hide OutcomeOf;
  }

  // A lookup that succeeds leaves the block in the cache; nothing leaves the cache.
  lemma LookupCached(mounts: Mounts, chains: Chains, mi: nat, nr: nat, mi': nat, nr': nat)
    requires GoodMounts(mounts) && Faithful(mounts, chains) && mi in mounts
    ensures Faithful(mounts, Lookup(mounts, chains, mi, nr))
    ensures
      var t, o := TipOf(mounts[mi], nr), OutcomeOf(mounts, chains, mi, nr);
      && (o.Fetched? ==> InTip(t, nr))
      && (Cached(Lookup(mounts, chains, mi, nr), mi', nr') <==>
          Cached(chains, mi', nr') || (o.Fetched? && mi' == mi && InTip(t, nr')))
  {
    hide Cached, AddAll;
    var o := OutcomeOf(mounts, chains, mi, nr);
    assert GoodMount(mounts[mi]) && GoodTip(mounts[mi], nr);
    if o.Fetched? {
      assert forall k :: o.start <= k < o.start + o.count ==> InTip(TipOf(mounts[mi], nr), k);
      AddAllCached(mounts, chains, mi, o.start, o.count, mi', nr');
    }
  }

  ghost predicate StillPresent(chains: Chains, chains': Chains) {
    forall mi, nr :: Present(chains, mi, nr) ==> Present(chains', mi, nr)
  }

  predicate AllPresent(chains: Chains, mi: nat, start: nat, n: nat) {
    forall nr :: start <= nr < start + n ==> Present(chains, mi, nr)
  }

  lemma StillAgain(chains: Chains, chains1: Chains, chains2: Chains)
    requires StillPresent(chains, chains1) && StillPresent(chains1, chains2)
    ensures StillPresent(chains, chains2)
  {
    hide Present;
  }

  lemma OneMorePresent(chains: Chains, chains': Chains, mi: nat, start: nat, n: nat)
    requires AllPresent(chains, mi, start, n) && StillPresent(chains, chains') && Present(chains', mi, start + n)
    ensures AllPresent(chains', mi, start, n + 1)
  {
    hide Present;
  }

  lemma NonePresent(chains: Chains, mi: nat, start: nat)
    ensures AllPresent(chains, mi, start, 0) && StillPresent(chains, chains)
  {}

  lemma OneOfPresent(chains: Chains, chains': Chains, mi: nat, start: nat, n: nat, i: nat)
    requires AllPresent(chains, mi, start, n) && StillPresent(chains, chains') && i < n
    ensures Present(chains', mi, start + i)
  {
    hide Present;
  }

  lemma LookupPresent(mounts: Mounts, chains: Chains, mi: nat, nr: nat)
    requires GoodMounts(mounts) && Faithful(mounts, chains) && mi in mounts
    ensures StillPresent(chains, Lookup(mounts, chains, mi, nr))
    ensures
      var o := OutcomeOf(mounts, chains, mi, nr);
      o.Hit? || o.Fetched? ==> Present(Lookup(mounts, chains, mi, nr), mi, nr)
  {
    hide Cached, Present, Lookup, GoodEntry, GoodMounts;
    var chains' := Lookup(mounts, chains, mi, nr);
    LookupCached(mounts, chains, mi, nr, mi, nr);
    PresentIsCached(mounts, chains', mi, nr);
    forall mi', nr' | Present(chains, mi', nr') ensures Present(chains', mi', nr') {
      LookupCached(mounts, chains, mi, nr, mi', nr');
      PresentIsCached(mounts, chains, mi', nr');
      PresentIsCached(mounts, chains', mi', nr');
    }
  }

  lemma LookupCopies(mounts: Mounts, chains: Chains, mi: nat, nr: nat, mi': nat, nr': nat)
    requires GoodMounts(mounts) && Faithful(mounts, chains) && mi in mounts
    ensures
      var t, o := TipOf(mounts[mi], nr), OutcomeOf(mounts, chains, mi, nr);
      CopiesOf(Lookup(mounts, chains, mi, nr), mi', nr') == CopiesOf(chains, mi', nr') +
        if o.Fetched? && mi' == mi && InTip(t, nr') && !(nr' == t.start && Cached(chains, mi, nr')) then 1 else 0
  {
    hide Cached, AddAll, CopiesOf;
    var o := OutcomeOf(mounts, chains, mi, nr);
    assert GoodMount(mounts[mi]) && GoodTip(mounts[mi], nr);
    if o.Fetched? {
      assert forall k :: o.start <= k < o.start + o.count ==> InTip(TipOf(mounts[mi], nr), k);
      AddAllCopies(mounts, chains, mi, o.start, o.count, mi', nr');
    }
  }

  // ---------------------------------------------------------------- runs

  datatype Key = Key(mi: nat, nr: nat)

  function Empty(): (chains: Chains)
    ensures |chains| == HASHSIZE && forall c :: 0 <= c < HASHSIZE ==> chains[c] == []
  {
    seq(HASHSIZE, _ => [])
  }

  predicate Mounted(mounts: Mounts, keys: seq<Key>) { forall k :: 0 <= k < |keys| ==> keys[k].mi in mounts }

  // The cache after looking up all the keys one after the other.
  ghost function After(mounts: Mounts, keys: seq<Key>): (chains: Chains)
    requires Mounted(mounts, keys)
    ensures |chains| == HASHSIZE
  {
    if keys == [] then Empty()
    else var n := |keys| - 1; Lookup(mounts, After(mounts, keys[..n]), keys[n].mi, keys[n].nr)
  }

  ghost function OutcomeAt(mounts: Mounts, keys: seq<Key>, k: nat): Outcome
    requires Mounted(mounts, keys) && k < |keys|
  {
    OutcomeOf(mounts, After(mounts, keys[..k]), keys[k].mi, keys[k].nr)
  }

  lemma AfterNext(mounts: Mounts, keys: seq<Key>, k: nat)
    requires Mounted(mounts, keys) && k < |keys|
    ensures After(mounts, keys[..k + 1]) == Lookup(mounts, After(mounts, keys[..k]), keys[k].mi, keys[k].nr)
  {
    assert keys[..k + 1][..k] == keys[..k] && keys[..k + 1][k] == keys[k];
  }

  lemma {:induction false} AfterFaithful(mounts: Mounts, keys: seq<Key>)
    requires GoodMounts(mounts) && Mounted(mounts, keys)
    ensures Faithful(mounts, After(mounts, keys))
  {
    if keys != [] {
      var n := |keys| - 1;
      AfterFaithful(mounts, keys[..n]);
      LookupCached(mounts, After(mounts, keys[..n]), keys[n].mi, keys[n].nr, 0, 0);
    }
  }

  lemma {:induction false} StaysCached(mounts: Mounts, keys: seq<Key>, i: nat, j: nat, mi: nat, nr: nat)
    requires GoodMounts(mounts) && Mounted(mounts, keys) && i <= j <= |keys|
    requires Cached(After(mounts, keys[..i]), mi, nr)
    ensures Cached(After(mounts, keys[..j]), mi, nr)
    decreases j
  {
    hide Cached, Faithful, Lookup, After;
    if i < j {
      StaysCached(mounts, keys, i, j - 1, mi, nr);
      AfterNext(mounts, keys, j - 1);
      AfterFaithful(mounts, keys[..j - 1]);
      LookupCached(mounts, After(mounts, keys[..j - 1]), keys[j - 1].mi, keys[j - 1].nr, mi, nr);
    }
  }

  // In every run a block whose lookup has succeeded is never asked of its device again.
  lemma NeverFetchedAgain(mounts: Mounts, keys: seq<Key>, i: nat, j: nat)
    requires GoodMounts(mounts) && Mounted(mounts, keys) && i < j < |keys| && keys[i] == keys[j]
    ensures OutcomeAt(mounts, keys, i).Hit? || OutcomeAt(mounts, keys, i).Fetched? ==> OutcomeAt(mounts, keys, j) == Hit
  {
    hide Cached, Faithful, Lookup, After;
    var o := OutcomeAt(mounts, keys, i);
    if o.Hit? || o.Fetched? {
      AfterFaithful(mounts, keys[..i]);
      LookupCached(mounts, After(mounts, keys[..i]), keys[i].mi, keys[i].nr, keys[i].mi, keys[i].nr);
      AfterNext(mounts, keys, i);
      StaysCached(mounts, keys, i + 1, j, keys[i].mi, keys[i].nr);
    }
  }

  // A tip read for one block meets a tip read for another one that it does not cover in its first block at most.
  ghost predicate Lean(mounts: Mounts) {
    forall mi, x: nat, y: nat :: mi in mounts ==> LeanPair(mounts[mi], x, y)
  }

  ghost predicate Readable(m: Mount, nr: nat) { !TipBad(TipOf(m, nr)) && TipReadable(m, TipOf(m, nr)) }

  ghost predicate LeanPair(m: Mount, x: nat, y: nat) {
    Readable(m, x) && Readable(m, y) && !InTip(TipOf(m, x), y) ==>
      forall z :: InTip(TipOf(m, x), z) && InTip(TipOf(m, y), z) ==> z == TipOf(m, y).start
  }

  // What is cached has been read with a tip for some block.
  lemma {:induction false} CachedFrom(mounts: Mounts, keys: seq<Key>, mi: nat, nr: nat) returns (x: nat)
    requires GoodMounts(mounts) && Mounted(mounts, keys) && Cached(After(mounts, keys), mi, nr)
    ensures mi in mounts && Readable(mounts[mi], x) && InTip(TipOf(mounts[mi], x), nr)
    ensures forall z :: InTip(TipOf(mounts[mi], x), z) ==> Cached(After(mounts, keys), mi, z)
    decreases |keys|
  {
    if keys == [] {
      assert false;
    } else {
      hide Cached, Faithful, Lookup, CopiesOf;
      var n := |keys| - 1;
      var before := After(mounts, keys[..n]);
      AfterFaithful(mounts, keys[..n]);
      LookupCached(mounts, before, keys[n].mi, keys[n].nr, mi, nr);
      if Cached(before, mi, nr) {
        x := CachedFrom(mounts, keys[..n], mi, nr);
      } else {
        x := keys[n].nr;
      }
      forall z | InTip(TipOf(mounts[mi], x), z) ensures Cached(After(mounts, keys), mi, z) {
        LookupCached(mounts, before, keys[n].mi, keys[n].nr, mi, z);
      }
    }
  }

  // With such tips no block ever has two entries, which the loop's search is meant to see to.
  lemma {:induction false} NeverTwice(mounts: Mounts, keys: seq<Key>, mi: nat, nr: nat)
    requires GoodMounts(mounts) && Lean(mounts) && Mounted(mounts, keys)
    ensures CopiesOf(After(mounts, keys), mi, nr) <= 1
    decreases |keys|
  {
    if keys != [] {
      hide Cached, Faithful, Lookup, CopiesOf;
      var n := |keys| - 1;
      var before, key := After(mounts, keys[..n]), keys[n];
      NeverTwice(mounts, keys[..n], mi, nr);
      AfterFaithful(mounts, keys[..n]);
      LookupCopies(mounts, before, key.mi, key.nr, mi, nr);
      CopiesCached(mounts, before, mi, nr);
      if OutcomeOf(mounts, before, key.mi, key.nr).Fetched? && mi == key.mi && Cached(before, mi, nr) {
        var x := CachedFrom(mounts, keys[..n], mi, nr);
        assert LeanPair(mounts[mi], x, key.nr);
      }
    }
  }

  // Otherwise two lookups are enough to have one block twice.
  lemma TwiceOtherwise(mounts: Mounts)
    requires GoodMounts(mounts) && !Lean(mounts)
    ensures exists keys: seq<Key>, mi: nat, nr: nat ::
              Mounted(mounts, keys) && CopiesOf(After(mounts, keys), mi, nr) == 2
  {
    var mi, x: nat, y: nat :| mi in mounts && !LeanPair(mounts[mi], x, y);
    var m := mounts[mi];
    var z: nat :| InTip(TipOf(m, x), z) && InTip(TipOf(m, y), z) && z != TipOf(m, y).start;
    TwoLookups(mounts, mi, x, y, z);
    assert Mounted(mounts, [Key(mi, x), Key(mi, y)]);
  }

  lemma TwoLookups(mounts: Mounts, mi: nat, x: nat, y: nat, z: nat)
    requires GoodMounts(mounts) && mi in mounts && Readable(mounts[mi], x) && Readable(mounts[mi], y)
    requires !InTip(TipOf(mounts[mi], x), y) && InTip(TipOf(mounts[mi], x), z) && InTip(TipOf(mounts[mi], y), z)
    requires z != TipOf(mounts[mi], y).start
    ensures CopiesOf(After(mounts, [Key(mi, x), Key(mi, y)]), mi, z) == 2
  {
    var keys := [Key(mi, x), Key(mi, y)];
    NothingCached(mi, x);
    NothingCached(mi, y);
    NothingCached(mi, z);
    assert After(mounts, keys[..0]) == Empty();
    AfterNext(mounts, keys, 0);
    AfterNext(mounts, keys, 1);
    assert keys[..2] == keys;
    hide Cached, Faithful, Lookup, CopiesOf, After;
    AfterFaithful(mounts, keys[..0]);
    AfterFaithful(mounts, keys[..1]);
    LookupCached(mounts, Empty(), mi, x, mi, y);
    LookupCopies(mounts, Empty(), mi, x, mi, z);
    LookupCopies(mounts, After(mounts, keys[..1]), mi, y, mi, z);
  }

  lemma NothingCached(mi: nat, nr: nat)
    ensures !Cached(Empty(), mi, nr) && CopiesOf(Empty(), mi, nr) == 0
  {}

  // fdc_whichsector and fdc_readtip: a floppy drive reads a whole track, of one side.
  function TrackTip(heads: nat, sectors: nat, nr: nat): Tip
    requires heads > 0 && sectors > 0
  {
    var track := nr / sectors;
    Tip(0, Times(Times(heads, track / heads) + track % heads, sectors), sectors)
  }

  function Times(a: nat, b: nat): nat { a * b }

  lemma TracksCover(heads: nat, sectors: nat, x: nat, y: nat)
    requires heads > 0 && sectors > 0
    ensures InTip(TrackTip(heads, sectors, x), x) && TrackTip(heads, sectors, x) == Tip(0, x - x % sectors, sectors)
    ensures InTip(TrackTip(heads, sectors, x), y) <==> TrackTip(heads, sectors, x) == TrackTip(heads, sectors, y)
  {
    hide Times;
    Divided(x / sectors, heads);
    Divided(y / sectors, heads);
    Divided(x, sectors);
    Divided(y, sectors);
    Quotient(y, x / sectors, sectors);
  }

  lemma Divided(t: nat, n: nat)
    requires n > 0
    ensures Times(n, t / n) + t % n == t && Times(t / n, n) == Times(n, t / n) && 0 <= t % n < n
  {}

  lemma Quotient(y: nat, q: nat, n: nat)
    requires n > 0
    ensures Times(q, n) <= y < Times(q, n) + n ==> y / n == q
    ensures Times(y / n, n) == Times(q, n) ==> y / n == q
  {
    var p := y / n;
    assert Times(p, n) <= y < Times(p, n) + n by { Divided(y, n); }
    if p < q { Larger(p, q, n); } else if q < p { Larger(q, p, n); }
  }

  lemma {:induction false} Larger(p: nat, q: nat, n: nat)
    requires p < q
    ensures Times(p, n) + n <= Times(q, n)
    decreases q
  {
    OneMore(q - 1, n);
    if p < q - 1 {
      hide Times;
      Larger(p, q - 1, n);
    }
  }

  lemma OneMore(q: nat, n: nat)
    ensures Times(q + 1, n) == Times(q, n) + n
  {}

  ghost predicate IsFloppy(m: Mount, heads: nat, sectors: nat) {
    && heads > 0 && sectors > 0 && m.readtip.Some?
    && forall nr: nat :: m.readtip.value(nr) == TrackTip(heads, sectors, nr)
  }

  // A device without readtip, or a floppy of its own geometry.
  ghost predicate LeanDevice(m: Mount) {
    m.readtip.None? || exists heads, sectors :: IsFloppy(m, heads, sectors)
  }

  // So reading these never leaves a block twice in the cache.
  lemma FloppiesAreLean(mounts: Mounts)
    requires forall mi :: mi in mounts ==> LeanDevice(mounts[mi])
    ensures Lean(mounts)
  {
    hide LeanPair, IsFloppy, TrackTip;
    forall mi, x: nat, y: nat | mi in mounts ensures LeanPair(mounts[mi], x, y) {
      assert LeanDevice(mounts[mi]);
      if mounts[mi].readtip.None? {
        NoTipIsLean(mounts[mi], x, y);
      } else {
        var heads, sectors :| IsFloppy(mounts[mi], heads, sectors);
        FloppyIsLean(mounts[mi], heads, sectors, x, y);
      }
    }
  }

  lemma NoTipIsLean(m: Mount, x: nat, y: nat)
    requires m.readtip.None?
    ensures LeanPair(m, x, y)
  {}

  lemma FloppyIsLean(m: Mount, heads: nat, sectors: nat, x: nat, y: nat)
    requires IsFloppy(m, heads, sectors)
    ensures LeanPair(m, x, y)
  {
    hide TrackTip;
    forall z | InTip(TipOf(m, x), z) && InTip(TipOf(m, y), z) ensures InTip(TipOf(m, x), y) {
      TracksCover(heads, sectors, x, z);
      TracksCover(heads, sectors, y, z);
      TracksCover(heads, sectors, y, y);
      TracksCover(heads, sectors, x, y);
    }
  }

  // ---------------------------------------------------------------- vfs_block.c

  // The blocks one after the other.
  function Joined(blocks: map<nat, Bytes>, start: nat, n: nat): Bytes
    requires forall nr :: start <= nr < start + n ==> nr in blocks
  {
    if n == 0 then [] else Joined(blocks, start, n - 1) + blocks[start + n - 1]
  }

  // Where the i-th of blocks of this size begins.
  function At(i: nat, size: nat): (n: nat) { Times(i, size) }

  lemma AtNext(i: nat, size: nat)
    ensures At(i + 1, size) == At(i, size) + size && At(0, size) == 0
  {}

  lemma {:induction false} JoinedAt(m: Mount, start: nat, n: nat, i: nat)
    requires GoodMount(m) && (forall nr :: start <= nr < start + n ==> nr in m.blocks)
    ensures |Joined(m.blocks, start, n)| == At(n, m.blocksize)
    ensures i < n ==> At(i, m.blocksize) + m.blocksize <= At(n, m.blocksize)
    ensures i < n ==>
              Joined(m.blocks, start, n)[At(i, m.blocksize)..At(i, m.blocksize) + m.blocksize] == m.blocks[start + i]
    decreases n
  {
    hide At;
    AtNext(0, m.blocksize);
    if n > 0 {
      AtNext(n - 1, m.blocksize);
      JoinedAt(m, start, n - 1, i);
      var rest, last := Joined(m.blocks, start, n - 1), m.blocks[start + n - 1];
      if i < n - 1 {
        assert (rest + last)[At(i, m.blocksize)..At(i, m.blocksize) + m.blocksize]
            == rest[At(i, m.blocksize)..At(i, m.blocksize) + m.blocksize];
      }
    }
  }

  method Copy(dst: array<Byte>, at: nat, src: Bytes)
    requires at + |src| <= dst.Length
    modifies dst
    ensures dst[..] == old(dst[..at]) + src + old(dst[at + |src|..])
  {
    forall k | 0 <= k < |src| { dst[at + k] := src[k]; }
  }

  datatype Ask = Ask(mi: nat, start: nat, count: nat)

  class Cache {
    const mounts: Mounts
    const chains: array<seq<CacheEntry>>   // bcache_chain
    ghost var asked: seq<Ask>         // what has been read from the devices

    ghost predicate Valid()
      reads this, chains
    {
      GoodMounts(mounts) && chains.Length == HASHSIZE && Faithful(mounts, chains[..])
    }

    constructor (mounts: Mounts)
      requires GoodMounts(mounts)
      ensures Valid() && fresh(chains) && this.mounts == mounts && chains[..] == Empty()
    {
      this.mounts := mounts;
      chains := new seq<CacheEntry>[HASHSIZE](_ => []);
      asked := [];
      new;
      assert chains[..] == Empty();
    }

    method Search(mi: nat, hash: nat, nr: nat) returns (found: Option<CacheEntry>)
      requires chains.Length == HASHSIZE
      ensures found.Some? <==> Holds(chains[hash % HASHSIZE], mi, hash, nr)
      ensures found.Some? ==> found.value in chains[hash % HASHSIZE] && Matches(found.value, mi, hash, nr)
    {
      var chain := chains[hash % HASHSIZE];
      var k := 0;
      while k < |chain|
        invariant 0 <= k <= |chain| && forall j :: 0 <= j < k ==> !Matches(chain[j], mi, hash, nr)
      {
        if Matches(chain[k], mi, hash, nr) { return Some(chain[k]); }
        k := k + 1;
      }
      found := None;
    }

    // A read of the device itself.
    method DeviceRead(mi: nat, start: nat, count: nat) returns (res: int, largeBuf: Bytes)
      requires mi in mounts
      modifies this`asked
      ensures asked == old(asked) + [Ask(mi, start, count)]
      ensures res == if TipReadable(mounts[mi], Tip(0, start, count)) then 0 else EIO
      ensures res == 0 ==> largeBuf == Joined(mounts[mi].blocks, start, count)
    {
      asked := asked + [Ask(mi, start, count)];
      largeBuf := [];
      for i := 0 to count
        invariant TipReadable(mounts[mi], Tip(0, start, i)) && largeBuf == Joined(mounts[mi].blocks, start, i)
      {
        if start + i !in mounts[mi].blocks { return EIO, []; }
        largeBuf := largeBuf + mounts[mi].blocks[start + i];
      }
      res := 0;
    }

    // One round of the loop that adds what has been read.
    method AddBlock(mi: nat, start: nat, i: nat, block: Bytes)
      requires chains.Length == HASHSIZE
      modifies chains
      ensures chains[..] == Add(old(chains[..]), mi, start, i, block)
    {
      var hash := Hash(mi, start + i);
      var c := hash % HASHSIZE;
      var found := Search(mi, hash, start);
      if found.None? {
        chains[c] := [CacheEntry(hash, mi, start + i, block)] + chains[c];
      }
    }

    method AddBlocks(mi: nat, start: nat, count: nat, largeBuf: Bytes)
      requires Valid() && mi in mounts && TipReadable(mounts[mi], Tip(0, start, count)) && count < WORD
      requires largeBuf == Joined(mounts[mi].blocks, start, count)
      modifies chains
      ensures chains[..] == AddAll(old(chains[..]), mi, start, count, mounts[mi].blocks)
    {
      hide Add, Hash;
      var size := mounts[mi].blocksize;
      for i := 0 to count
        invariant chains[..] == AddAll(old(chains[..]), mi, start, i, mounts[mi].blocks)
      {
        JoinedAt(mounts[mi], start, count, i);
        AddBlock(mi, start, i, largeBuf[At(i, size)..At(i, size) + size]);
      }
    }

    // The first scan of buffercache_read.
    method FindBlock(mi: nat, nr: nat) returns (found: Option<CacheEntry>)
      requires Valid() && mi in mounts
      ensures found.Some? <==> Cached(chains[..], mi, nr)
      ensures found.Some? ==> nr in mounts[mi].blocks && found.value.buffer == mounts[mi].blocks[nr]
    {
      hide Hash;
      var hash := Hash(mi, nr);
      found := Search(mi, hash, nr);
      assert chains[hash % HASHSIZE] == chains[..][hash % HASHSIZE];
      if found.Some? {
        var j :| 0 <= j < |chains[hash % HASHSIZE]| && chains[hash % HASHSIZE][j] == found.value;
        assert GoodEntry(mounts, chains[..][hash % HASHSIZE][j], hash % HASHSIZE);
      }
    }

    // buffercache_read
    method Read(mi: nat, nr: nat, buf: array<Byte>, at: nat) returns (res: int)
      requires Valid() && mi in mounts && at + mounts[mi].blocksize <= buf.Length
      modifies this`asked, chains, buf
      ensures Valid() && chains[..] == Lookup(mounts, old(chains[..]), mi, nr)
      ensures
        var o := OutcomeOf(mounts, old(chains[..]), mi, nr);
        && Asks(mounts, old(chains[..]), mi, nr, o)
        && asked == old(asked) + (if o.Hit? || o.Refused? then [] else [Ask(mi, o.start, o.count)])
        && res == if o.Refused? then 22 else if o.Failed? then 5 else 0
      ensures res == 0 ==> nr in mounts[mi].blocks && |mounts[mi].blocks[nr]| == mounts[mi].blocksize
      ensures buf[..] == if res != 0 then old(buf[..])
                         else old(buf[..at]) + mounts[mi].blocks[nr] + old(buf[at + mounts[mi].blocksize..])
    {
      hide Cached, AddAll, Faithful, Hash, Asks;
      var m := mounts[mi];
      OutcomeAsks(mounts, chains[..], mi, nr);
      var found := FindBlock(mi, nr);
      LookupCached(mounts, chains[..], mi, nr, mi, nr);
      assert GoodMount(m) && GoodTip(m, nr);
      if found.Some? {
        Copy(buf, at, found.value.buffer);
        return 0;
      }
      var tip := TipOf(m, nr);
      if TipBad(tip) { return EINVAL; }
      var wanted := nr - tip.start;
      var largeBuf;
      res, largeBuf := DeviceRead(mi, tip.start, tip.count);
      if res != 0 { return; }
      AddBlocks(mi, tip.start, tip.count, largeBuf);
      JoinedAt(m, tip.start, tip.count, wanted);
      Copy(buf, at, largeBuf[At(wanted, m.blocksize)..At(wanted, m.blocksize) + m.blocksize]);
    }

    // One block, as block_read needs it.
    method ReadOne(mi: nat, nr: nat, buf: array<Byte>, at: nat) returns (res: int)
      requires Valid() && mi in mounts && at + mounts[mi].blocksize <= buf.Length
      modifies this`asked, chains, buf
      ensures Valid()
      ensures res == 0 ==> nr in mounts[mi].blocks && |mounts[mi].blocks[nr]| == mounts[mi].blocksize
      ensures buf[..] == if res != 0 then old(buf[..])
                         else old(buf[..at]) + mounts[mi].blocks[nr] + old(buf[at + mounts[mi].blocksize..])
      ensures Healthy(mounts[mi]) ==> (res == 0 <==> nr in mounts[mi].blocks)
      ensures StillPresent(old(chains[..]), chains[..]) && (res == 0 ==> Present(chains[..], mi, nr))
      ensures Present(old(chains[..]), mi, nr) ==> res == 0 && asked == old(asked)
    {
      hide Faithful, Cached, Lookup, Healthy, OutcomeOf, GoodMounts, Asks, Present, StillPresent;
      ghost var before := chains[..];
      LookupPresent(mounts, before, mi, nr);
      HitIfPresent(mounts, before, mi, nr);
      res := Read(mi, nr, buf, at);
      if Healthy(mounts[mi]) { NotOnDevice(mounts, before, mi, nr); }
    }

    // block_read
    method BlockRead(mi: nat, nr: nat, n: nat, buf: array<Byte>) returns (res: int)
      requires Valid() && mi in mounts && At(n, mounts[mi].blocksize) <= buf.Length
      modifies this`asked, chains, buf
      ensures Valid()
      ensures res == 0 ==> TipReadable(mounts[mi], Tip(0, nr, n))
      ensures res == 0 ==> |Joined(mounts[mi].blocks, nr, n)| == At(n, mounts[mi].blocksize)
      ensures res == 0 ==> buf[..] == Joined(mounts[mi].blocks, nr, n) + old(buf[At(n, mounts[mi].blocksize)..])
      ensures Healthy(mounts[mi]) ==> (res == 0 <==> TipReadable(mounts[mi], Tip(0, nr, n)))
      ensures StillPresent(old(chains[..]), chains[..]) && (res == 0 ==> AllPresent(chains[..], mi, nr, n))
      ensures AllPresent(old(chains[..]), mi, nr, n) ==> res == 0 && asked == old(asked)
    {
      hide Faithful, At, Joined, Healthy, GoodMounts, Present, StillPresent, AllPresent;
      var m := mounts[mi];
      AtNext(0, m.blocksize);
      assert Joined(m.blocks, nr, 0) == [] by { JoinedNone(m.blocks, nr); }
      NonePresent(chains[..], mi, nr);
      for i := 0 to n
        invariant Valid() && TipReadable(m, Tip(0, nr, i)) && At(i, m.blocksize) <= buf.Length
        invariant |Joined(m.blocks, nr, i)| == At(i, m.blocksize)
        invariant StillPresent(old(chains[..]), chains[..]) && AllPresent(chains[..], mi, nr, i)
        invariant AllPresent(old(chains[..]), mi, nr, n) ==> asked == old(asked)
        invariant buf[..] == Joined(m.blocks, nr, i) + old(buf[..])[At(i, m.blocksize)..]
      {
        AtNext(i, m.blocksize);
        AtGrows(i + 1, n, m.blocksize);
        ghost var filled, before := buf[..], chains[..];
        if AllPresent(old(chains[..]), mi, nr, n) { OneOfPresent(old(chains[..]), before, mi, nr, n, i); }
        res := ReadOne(mi, nr + i, buf, At(i, m.blocksize));
        StillAgain(old(chains[..]), before, chains[..]);
        if res != 0 { return; }
        OneMorePresent(before, chains[..], mi, nr, i);
        JoinedNext(m.blocks, nr, i, filled, old(buf[..]), m.blocksize);
      }
      res := 0;
    }
  }

  lemma JoinedNone(blocks: map<nat, Bytes>, nr: nat)
    ensures Joined(blocks, nr, 0) == []
  {}

  // One more block, behind those the buffer holds already.
  lemma JoinedNext(blocks: map<nat, Bytes>, nr: nat, i: nat, filled: Bytes, before: Bytes, size: nat)
    requires (forall b :: nr <= b < nr + i ==> b in blocks) && nr + i in blocks && |blocks[nr + i]| == size
    requires |Joined(blocks, nr, i)| == At(i, size) && At(i + 1, size) <= |before|
             && At(i + 1, size) == At(i, size) + size
    requires filled == Joined(blocks, nr, i) + before[At(i, size)..]
    ensures |Joined(blocks, nr, i + 1)| == At(i + 1, size) && |filled| == |before|
    ensures filled[..At(i, size)] + blocks[nr + i] + filled[At(i, size) + size..]
         == Joined(blocks, nr, i + 1) + before[At(i + 1, size)..]
  {
    hide At;
    assert filled[..At(i, size)] == Joined(blocks, nr, i);
    assert filled[At(i, size) + size..] == before[At(i + 1, size)..];
    assert Joined(blocks, nr, i + 1) == Joined(blocks, nr, i) + blocks[nr + i];
  }

  lemma {:induction false} AtGrows(i: nat, n: nat, size: nat)
    requires i <= n
    ensures At(i, size) <= At(n, size)
    decreases n
  {
    if i < n {
      AtNext(n - 1, size);
      AtGrows(i, n - 1, size);
    }
  }

  // Whatever a tip for a block of the device asks for is on the device.
  ghost predicate Healthy(m: Mount) { forall nr :: nr in m.blocks ==> Readable(m, nr) }

  // On such a device only blocks that are not on it cannot be read, cached or not.
  lemma NotOnDevice(mounts: Mounts, chains: Chains, mi: nat, nr: nat)
    requires GoodMounts(mounts) && Faithful(mounts, chains) && mi in mounts && Healthy(mounts[mi])
    ensures
      var o := OutcomeOf(mounts, chains, mi, nr);
      o.Hit? || o.Fetched? <==> nr in mounts[mi].blocks
  {
    hide Hash;
    assert GoodMount(mounts[mi]) && GoodTip(mounts[mi], nr);
    if Cached(chains, mi, nr) { CachedOnDevice(mounts, chains, mi, nr); }
  }

  lemma CachedOnDevice(mounts: Mounts, chains: Chains, mi: nat, nr: nat)
    requires Faithful(mounts, chains) && mi in mounts && Cached(chains, mi, nr)
    ensures nr in mounts[mi].blocks
  {
    hide Hash;
    var c := Hash(mi, nr) % HASHSIZE;
    var j :| 0 <= j < |chains[c]| && Matches(chains[c][j], mi, Hash(mi, nr), nr);
    assert GoodEntry(mounts, chains[c][j], c);
  }
}
