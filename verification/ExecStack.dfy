/** modules/emul/openbsd_aout: the arguments and the environment on a new process' stack. */
module ExecStack {
  import opened VmObjects

  const WORD := 0x1_0000_0000

  type Bytes = seq<Byte>

  // A C string, without its terminating zero.
  predicate IsString(s: Bytes) { forall i :: 0 <= i < |s| ==> s[i] != 0 }

  predicate AreStrings(ss: seq<Bytes>) { forall i :: 0 <= i < |ss| ==> IsString(ss[i]) }

  // ---------------------------------------------------------------- words

  function Le(w: nat): (b: Bytes)
    requires w < WORD
    ensures |b| == 4
  {
    [(w % 256) as Byte, (w / 256 % 256) as Byte, (w / 65536 % 256) as Byte, (w / 16777216) as Byte]
  }

  function WordAt(m: Bytes, off: int): nat {
    if 0 <= off && off + 4 <= |m|
    then m[off] as nat + 256 * m[off + 1] as nat + 65536 * m[off + 2] as nat + 16777216 * m[off + 3] as nat
    else 0
  }

  lemma WordLe(before: Bytes, w: nat, after: Bytes)
    requires w < WORD
    ensures WordAt(before + Le(w) + after, |before|) == w
  {
    var m, n := before + Le(w) + after, |before|;
    assert m[n] == Le(w)[0] && m[n + 1] == Le(w)[1] && m[n + 2] == Le(w)[2] && m[n + 3] == Le(w)[3];
    WordBytes(w);
  }

  lemma WordBytes(w: nat)
    requires w < WORD
    ensures w % 256 + 256 * (w / 256 % 256) + 65536 * (w / 65536 % 256) + 16777216 * (w / 16777216) == w
  {}

  predicate AreWords(ws: seq<nat>) { forall i :: 0 <= i < |ws| ==> ws[i] < WORD }

  function Words(ws: seq<nat>): (b: Bytes)
    requires AreWords(ws)
    ensures |b| == 4 * |ws|
  {
    if ws == [] then [] else Le(ws[0]) + Words(ws[1..])
  }

  lemma {:induction false} WordsAt(before: Bytes, ws: seq<nat>, after: Bytes, i: nat)
    requires AreWords(ws) && i < |ws|
    ensures WordAt(before + Words(ws) + after, |before| + 4 * i) == ws[i]
    decreases i
  {
    if i == 0 {
      assert before + Words(ws) + after == before + Le(ws[0]) + (Words(ws[1..]) + after);
      WordLe(before, ws[0], Words(ws[1..]) + after);
    } else {
      assert before + Words(ws) + after == (before + Le(ws[0])) + Words(ws[1..]) + after;
      WordsAt(before + Le(ws[0]), ws[1..], after, i - 1);
    }
  }

  lemma {:induction false} WordsAppend(ws: seq<nat>, w: nat)
    requires AreWords(ws) && w < WORD
    ensures Words(ws + [w]) == Words(ws) + Le(w)
  {
    if ws == [] {
      assert (ws + [w])[1..] == [];
    } else {
      assert (ws + [w])[1..] == ws[1..] + [w];
      WordsAppend(ws[1..], w);
    }
  }

  // ---------------------------------------------------------------- strings

  // Total length with terminating zeros.
  function Total(ss: seq<Bytes>): nat {
    if ss == [] then 0 else |ss[0]| + 1 + Total(ss[1..])
  }

  // What copying the rest of a string to new pages writes: every page begins with the beginning of the string.
  function Restarted(s: Bytes, left: nat): (b: Bytes)
    requires left <= |s|
    ensures |b| == left
    decreases left
  {
    if left < PAGESIZE then s[..left] else s[..PAGESIZE] + Restarted(s, left - PAGESIZE)
  }

  // What openbsd_aout__copystr writes for s, which includes its zero, with `avail` bytes left on the page.
  function Copied(s: Bytes, avail: nat): (b: Bytes)
    ensures |b| == |s|
  {
    if avail >= |s| then s else s[..avail] + Restarted(s, |s| - avail)
  }

  function Avail(pos: nat): nat { PAGESIZE - pos % PAGESIZE }

  // All strings, copied one after the other from position pos on.
  function Strings(ss: seq<Bytes>, pos: nat): (b: Bytes)
    ensures |b| == Total(ss)
  {
    if ss == [] then [] else Copied(ss[0] + [0], Avail(pos)) + Strings(ss[1..], pos + |ss[0]| + 1)
  }

  // No string crosses the end of a page.
  predicate NoStraddle(ss: seq<Bytes>, pos: nat) {
    ss == [] || (|ss[0]| + 1 <= Avail(pos) && NoStraddle(ss[1..], pos + |ss[0]| + 1))
  }

  function StringAt(m: Bytes, off: int): Bytes
    decreases |m| - off
  {
    if off < 0 || off >= |m| || m[off] == 0 then [] else [m[off]] + StringAt(m, off + 1)
  }

  lemma {:induction false} StringIs(m: Bytes, off: nat, s: Bytes)
    requires off + |s| < |m| && m[off..off + |s|] == s && m[off + |s|] == 0 && IsString(s)
    ensures StringAt(m, off) == s
    decreases |s|
  {
    if s != [] {
      assert m[off] == m[off..off + |s|][0] == s[0];
      assert m[off + 1..off + 1 + |s[1..]|] == m[off..off + |s|][1..];
      StringIs(m, off + 1, s[1..]);
    }
  }

  // If no zero comes among the first n bytes, the string is at least n bytes long.
  lemma {:induction false} StringLong(m: Bytes, off: nat, n: nat)
    requires off + n <= |m| && forall i :: off <= i < off + n ==> m[i] != 0
    ensures |StringAt(m, off)| >= n
    decreases n
  {
    if n > 0 { StringLong(m, off + 1, n - 1); }
  }

  lemma {:induction false} RestartedNoZero(s: Bytes, left: nat)
    requires IsString(s) && left <= |s|
    ensures IsString(Restarted(s + [0], left))
    decreases left
  {
    if left >= PAGESIZE {
      RestartedNoZero(s, left - PAGESIZE);
    } else {
      assert (s + [0])[..left] == s[..left];
    }
  }

  // A string that crosses a page loses its terminating zero.
  lemma CopiedNoZero(s: Bytes, avail: nat)
    requires IsString(s) && 0 < avail <= |s|
    ensures IsString(Copied(s + [0], avail))
  {
    RestartedNoZero(s, |s| + 1 - avail);
    assert (s + [0])[..avail] == s[..avail];
  }

  // Byte by byte: after the first page the string begins again on every page.
  lemma {:induction false} RestartedBytes(s: Bytes, left: nat, k: nat)
    requires k < left <= |s|
    ensures Restarted(s, left)[k] == s[k % 4096]
    decreases left
  {
    if left >= PAGESIZE && k >= PAGESIZE {
      RestartedBytes(s, left - PAGESIZE, k - PAGESIZE);
      assert (k - PAGESIZE) % 4096 == k % 4096;
    }
  }

  lemma CopiedBytes(s: Bytes, avail: nat, k: nat)
    requires k < |s|
    ensures Copied(s, avail)[k] == s[if k < avail then k else (k - avail) % 4096]
  {
    if avail <= k { RestartedBytes(s, |s| - avail, k - avail); }
  }

  // Position of the i-th string.
  function Place(ss: seq<Bytes>, i: nat): nat
    requires i <= |ss|
  {
    if i == 0 then 0 else |ss[0]| + 1 + Place(ss[1..], i - 1)
  }

  lemma {:induction false} PlaceWithin(ss: seq<Bytes>, i: nat)
    requires i < |ss|
    ensures Place(ss, i) + |ss[i]| + 1 <= Total(ss)
  {
    if i > 0 { PlaceWithin(ss[1..], i - 1); }
  }

  // What is at the place of a string.
  lemma {:induction false} StringsAt(ss: seq<Bytes>, pos: nat, i: nat)
    requires i < |ss|
    ensures Place(ss, i) + |ss[i]| + 1 <= Total(ss)
    ensures Strings(ss, pos)[Place(ss, i)..Place(ss, i) + |ss[i]| + 1] == Copied(ss[i] + [0], Avail(pos + Place(ss, i)))
  {
    hide Copied, Avail;
    PlaceWithin(ss, i);
    var head := Copied(ss[0] + [0], Avail(pos));
    if i > 0 {
      StringsAt(ss[1..], pos + |ss[0]| + 1, i - 1);
      var p, n := Place(ss[1..], i - 1), |ss[i]| + 1;
      var rest := Strings(ss[1..], pos + |ss[0]| + 1);
      assert (head + rest)[|head| + p..|head| + p + n] == rest[p..p + n];
    }
  }

  lemma {:induction false} NoneStraddles(ss: seq<Bytes>, pos: nat, i: nat)
    requires NoStraddle(ss, pos) && i < |ss|
    ensures |ss[i]| + 1 <= Avail(pos + Place(ss, i))
  {
    hide Avail;
    if i > 0 { NoneStraddles(ss[1..], pos + |ss[0]| + 1, i - 1); }
  }

  lemma {:induction false} SomeStraddles(ss: seq<Bytes>, pos: nat) returns (i: nat)
    requires !NoStraddle(ss, pos)
    ensures i < |ss| && |ss[i]| + 1 > Avail(pos + Place(ss, i))
  {
    hide Avail;
    if |ss[0]| + 1 <= Avail(pos) {
      i := SomeStraddles(ss[1..], pos + |ss[0]| + 1);
      i := i + 1;
    } else {
      i := 0;
    }
  }

  // ---------------------------------------------------------------- the image

  function HeaderLength(argv: seq<Bytes>, envp: seq<Bytes>): nat { 4 + 4 * (|argv| + 1) + 4 * (|envp| + 1) }

  // Rounded up to words, with one word to spare.
  function Length(argv: seq<Bytes>, envp: seq<Bytes>): nat {
    (HeaderLength(argv, envp) + Total(argv) + Total(envp) + 4 + 3) / 4 * 4
  }

  // What is left over.
  function Slack(argv: seq<Bytes>, envp: seq<Bytes>): (n: nat)
    ensures 4 <= n < 8
  {
    Length(argv, envp) - HeaderLength(argv, envp) - Total(argv) - Total(envp)
  }

  function PageCount(n: nat): nat { (n + PAGESIZE - 1) / PAGESIZE }

  // Offset of the image in its first page: it ends with the stack.
  function StartOffset(argv: seq<Bytes>, envp: seq<Bytes>): (off: nat)
    ensures off < PAGESIZE
  {
    PageCount(Length(argv, envp)) * PAGESIZE - Length(argv, envp)
  }

  // Everything fits below the end of userland.
  predicate Fits(argv: seq<Bytes>, envp: seq<Bytes>, userland: nat) {
    userland + Length(argv, envp) <= WORD
  }

  function Base(argv: seq<Bytes>, envp: seq<Bytes>, userland: nat): nat
    requires Fits(argv, envp, userland)
  {
    WORD - userland - Length(argv, envp)
  }

  // Addresses of the first n strings.
  function Pointers(ss: seq<Bytes>, first: nat, n: nat): (ps: seq<nat>)
    requires n <= |ss|
    ensures |ps| == n && forall i :: 0 <= i < n ==> ps[i] == first + Place(ss, i)
  {
    seq(n, i requires 0 <= i < n => first + Place(ss, i))
  }

  function HeaderWords(argv: seq<Bytes>, envp: seq<Bytes>, userland: nat): (ws: seq<nat>)
    requires Fits(argv, envp, userland)
    ensures 4 * |ws| == HeaderLength(argv, envp)
  {
    var first := Base(argv, envp, userland) + HeaderLength(argv, envp);
    Header(|argv|, Pointers(argv, first, |argv|), Pointers(envp, first + Total(argv), |envp|))
  }

  // argc, the pointers to the arguments, and those to the environment, with a null after each.
  function Header(argc: nat, a: seq<nat>, e: seq<nat>): seq<nat> { [argc] + a + [0] + e + [0] }

  lemma HeaderFits(argv: seq<Bytes>, envp: seq<Bytes>, userland: nat)
    requires Fits(argv, envp, userland) && userland > 0
    ensures AreWords(HeaderWords(argv, envp, userland))
  {
    var ws := HeaderWords(argv, envp, userland);
    forall i | 0 <= i < |ws| ensures ws[i] < WORD {
      if 1 <= i <= |argv| { PlaceWithin(argv, i - 1); }
      if |argv| + 2 <= i < |ws| - 1 { PlaceWithin(envp, i - |argv| - 2); }
    }
  }

  lemma {:induction false} StringsAppend(ss: seq<Bytes>, ss': seq<Bytes>, pos: nat)
    ensures Strings(ss + ss', pos) == Strings(ss, pos) + Strings(ss', pos + Total(ss))
    ensures Total(ss + ss') == Total(ss) + Total(ss')
  {
    hide Copied, Avail;
    if ss == [] {
      assert ss + ss' == ss';
    } else {
      assert (ss + ss')[1..] == ss[1..] + ss' && (ss + ss')[0] == ss[0];
      StringsAppend(ss[1..], ss', pos + |ss[0]| + 1);
      var head, rest := Copied(ss[0] + [0], Avail(pos)), Strings(ss[1..], pos + |ss[0]| + 1);
      var last := Strings(ss', pos + Total(ss));
      assert Strings(ss + ss', pos) == head + (rest + last);
      assert head + (rest + last) == head + rest + last;
    }
  }

  // The stack of the new process, from the address of argc to its end.
  function Image(argv: seq<Bytes>, envp: seq<Bytes>, userland: nat): (m: Bytes)
    requires Fits(argv, envp, userland) && userland > 0
  {
    HeaderFits(argv, envp, userland);
    var n := HeaderLength(argv, envp);
    Words(HeaderWords(argv, envp, userland)) + Strings(argv + envp, StartOffset(argv, envp) + n)
    + Zeroes(Slack(argv, envp))
  }

  // What a C program finds: argc, then its pointers up to a null, then those to the environment up to a null.
  predicate Sees(m: Bytes, base: nat, argv: seq<Bytes>, envp: seq<Bytes>) {
    && WordAt(m, 0) == |argv|
    && (forall i :: 0 <= i < |argv| ==> PointsTo(m, base, 4 + 4 * i, argv[i]))
    && WordAt(m, 4 + 4 * |argv|) == 0
    && (forall i :: 0 <= i < |envp| ==> PointsTo(m, base, 4 + 4 * (|argv| + 1) + 4 * i, envp[i]))
    && WordAt(m, 4 + 4 * (|argv| + 1) + 4 * |envp|) == 0
  }

  predicate PointsTo(m: Bytes, base: nat, off: int, s: Bytes) {
    WordAt(m, off) != 0 && StringAt(m, WordAt(m, off) - base) == s
  }

  lemma NotNull(m: Bytes, base: nat, e: nat, envp: seq<Bytes>, n: nat)
    requires forall i :: 0 <= i < |envp| ==> PointsTo(m, base, e + 4 * i, envp[i])
    ensures n < |envp| ==> WordAt(m, e + 4 * n) != 0
  {
    if n < |envp| { assert PointsTo(m, base, e + 4 * n, envp[n]); }
  }

  // It finds one list of arguments and one environment only.
  lemma SeesOne(m: Bytes, base: nat, argv: seq<Bytes>, envp: seq<Bytes>, argv': seq<Bytes>, envp': seq<Bytes>)
    requires Sees(m, base, argv, envp) && Sees(m, base, argv', envp')
    ensures argv == argv' && envp == envp'
  {
    hide WordAt, StringAt;
    forall i | 0 <= i < |argv| ensures argv[i] == argv'[i] {
      assert PointsTo(m, base, 4 + 4 * i, argv[i]) && PointsTo(m, base, 4 + 4 * i, argv'[i]);
    }
    var e := 4 + 4 * (|argv| + 1);
    NotNull(m, base, e, envp, |envp'|);
    NotNull(m, base, e, envp', |envp|);
    forall i | 0 <= i < |envp| ensures envp[i] == envp'[i] {
      assert PointsTo(m, base, e + 4 * i, envp[i]) && PointsTo(m, base, e + 4 * i, envp'[i]);
    }
  }

  // The words of the header are where they should be.
  lemma ImageWord(argv: seq<Bytes>, envp: seq<Bytes>, userland: nat, k: nat)
    requires Fits(argv, envp, userland) && userland > 0 && k < |HeaderWords(argv, envp, userland)|
    ensures WordAt(Image(argv, envp, userland), 4 * k) == HeaderWords(argv, envp, userland)[k]
  {
    hide WordAt, Words, Strings, HeaderWords, Length, StartOffset;
    HeaderFits(argv, envp, userland);
    var ws := HeaderWords(argv, envp, userland);
    var rest := Strings(argv + envp, StartOffset(argv, envp) + HeaderLength(argv, envp))
                + Zeroes(Slack(argv, envp));
    WordsAt([], ws, rest, k);
    assert [] + Words(ws) + rest == Image(argv, envp, userland);
  }

  // String i of them all is found exactly if it does not cross a page.
  lemma ImageString(argv: seq<Bytes>, envp: seq<Bytes>, userland: nat, i: nat)
    requires Fits(argv, envp, userland) && userland > 0 && AreStrings(argv + envp) && i < |argv + envp|
    ensures
      var s, place := (argv + envp)[i], HeaderLength(argv, envp) + Place(argv + envp, i);
      StringAt(Image(argv, envp, userland), place) == s <==> |s| + 1 <= Avail(StartOffset(argv, envp) + place)
  {
    hide Words, HeaderWords, Length, StartOffset, Avail, StringAt, Copied, Strings, Slack, Zeroes;
    var all, n, off := argv + envp, HeaderLength(argv, envp), StartOffset(argv, envp);
    var s, p, m := all[i], Place(all, i), Image(argv, envp, userland);
    HeaderFits(argv, envp, userland);
    StringsAppend(argv, envp, off + n);
    StringsAt(all, off + n, i);
    var strings := Strings(all, off + n);
    Middle(Words(HeaderWords(argv, envp, userland)), strings, Zeroes(Slack(argv, envp)), p, p + |s| + 1);
    CopiedIn(m, n + p, s, Avail(off + n + p)) by { AvailPositive(off + n + p); }
  }

  lemma Middle(a: Bytes, b: Bytes, c: Bytes, i: nat, j: nat)
    requires i <= j <= |b|
    ensures |a| + j <= |a + b + c| && (a + b + c)[|a| + i..|a| + j] == b[i..j]
  {}

  lemma AvailPositive(pos: nat)
    ensures 0 < Avail(pos) <= PAGESIZE
  {}

  lemma CopiedIn(m: Bytes, at: nat, s: Bytes, avail: nat)
    requires IsString(s) && avail > 0 && at + |s| + 1 <= |m| && m[at..at + |s| + 1] == Copied(s + [0], avail)
    ensures StringAt(m, at) == s <==> |s| + 1 <= avail
  {
    hide StringAt;
    if |s| + 1 <= avail {
      assert m[at..at + |s|] == m[at..at + |s| + 1][..|s|] == s;
      assert m[at + |s|] == m[at..at + |s| + 1][|s|] == 0;
      StringIs(m, at, s);
    } else {
      CopiedNoZero(s, avail);
      assert forall k :: at <= k < at + |s| + 1 ==> m[k] == m[at..at + |s| + 1][k - at];
      StringLong(m, at, |s| + 1);
    }
  }

  lemma {:induction false} PlaceAppend(ss: seq<Bytes>, ss': seq<Bytes>, i: nat)
    requires i <= |ss'|
    ensures Place(ss + ss', |ss| + i) == Total(ss) + Place(ss', i)
    ensures forall k :: 0 <= k < |ss| ==> Place(ss + ss', k) == Place(ss, k)
    decreases |ss|
  {
    if ss == [] {
      assert ss + ss' == ss';
    } else {
      assert (ss + ss')[1..] == ss[1..] + ss' && (ss + ss')[0] == ss[0];
      PlaceAppend(ss[1..], ss', i);
    }
  }

  // The new process finds exactly argv and envp if, and only if, no string crosses the end of a page.
  lemma ReadBack(argv: seq<Bytes>, envp: seq<Bytes>, userland: nat)
    requires Fits(argv, envp, userland) && userland > 0 && AreStrings(argv) && AreStrings(envp)
    ensures Sees(Image(argv, envp, userland), Base(argv, envp, userland), argv, envp) <==>
            NoStraddle(argv + envp, StartOffset(argv, envp) + HeaderLength(argv, envp))
  {
    hide Image, WordAt, StringAt, Place, Total, Avail, StartOffset, Length, HeaderWords;
    var all, m, base := argv + envp, Image(argv, envp, userland), Base(argv, envp, userland);
    var pos := StartOffset(argv, envp) + HeaderLength(argv, envp);
    HeaderFound(argv, envp, userland);
    forall i | 0 <= i < |all|
      ensures PointsTo(m, base, 4 + 4 * (if i < |argv| then i else i + 1), all[i]) <==>
              |all[i]| + 1 <= Avail(pos + Place(all, i))
    {
      ImageString(argv, envp, userland, i);
    }
    if NoStraddle(all, pos) {
      forall i | 0 <= i < |argv| ensures PointsTo(m, base, 4 + 4 * i, argv[i]) {
        NoneStraddles(all, pos, i);
        assert all[i] == argv[i];
      }
      forall i | 0 <= i < |envp| ensures PointsTo(m, base, 4 + 4 * (|argv| + 1) + 4 * i, envp[i]) {
        NoneStraddles(all, pos, |argv| + i);
        assert all[|argv| + i] == envp[i];
      }
    } else {
      var i := SomeStraddles(all, pos);
      assert if i < |argv| then all[i] == argv[i] else all[i] == envp[i - |argv|];
    }
  }

  // Words are little-endian: argc comes with its low byte first.
  lemma LowByteFirst(argv: seq<Bytes>, envp: seq<Bytes>, userland: nat)
    requires Fits(argv, envp, userland) && userland > 0
    ensures var m := Image(argv, envp, userland); |m| > 4 && m[0] as nat == |argv| % 256
  {
    hide Image, WordAt, Base, StartOffset;
    ImageEnds(argv, envp, userland);
    HeaderFound(argv, envp, userland);
    LowByte(Image(argv, envp, userland), |argv|);
  }

  lemma LowByte(m: Bytes, w: nat)
    requires |m| >= 4 && WordAt(m, 0) == w
    ensures m[0] as nat == w % 256
  {}

  // It is as long as was computed, and ends with the pages it is in, at the end of userland.
  lemma ImageEnds(argv: seq<Bytes>, envp: seq<Bytes>, userland: nat)
    requires Fits(argv, envp, userland) && userland > 0
    ensures var n := |Image(argv, envp, userland)|;
      && n == Length(argv, envp) && n % 4 == 0 && (StartOffset(argv, envp) + n) % 4096 == 0
      && Base(argv, envp, userland) + n == 0x1_0000_0000 - userland
  {
    hide Words, Strings, HeaderWords;
    StringsAppend(argv, envp, 0);
    HeaderFits(argv, envp, userland);
    var pages := PageCount(Length(argv, envp));
    assert pages * PAGESIZE % PAGESIZE == 0;
  }

  // Every word of the header is found where it should be, and every pointer leads to the place of its string.
  lemma HeaderFound(argv: seq<Bytes>, envp: seq<Bytes>, userland: nat)
    requires Fits(argv, envp, userland) && userland > 0
    ensures
      var m, all := Image(argv, envp, userland), argv + envp;
      var first := Base(argv, envp, userland) + HeaderLength(argv, envp);
      && WordAt(m, 0) == |argv| && WordAt(m, 4 + 4 * |argv|) == 0
      && WordAt(m, 4 + 4 * (|argv| + 1) + 4 * |envp|) == 0
      && forall i :: 0 <= i < |all| ==> WordAt(m, 4 + 4 * (if i < |argv| then i else i + 1)) == first + Place(all, i)
  {
    hide WordAt, Image;
    var all, ws := argv + envp, HeaderWords(argv, envp, userland);
    ImageWord(argv, envp, userland, 0);
    ImageWord(argv, envp, userland, 1 + |argv|);
    ImageWord(argv, envp, userland, |ws| - 1);
    forall i | 0 <= i < |all|
      ensures WordAt(Image(argv, envp, userland), 4 + 4 * (if i < |argv| then i else i + 1)) ==
              Base(argv, envp, userland) + HeaderLength(argv, envp) + Place(all, i)
    {
      var k := if i < |argv| then i + 1 else i + 2;
      ImageWord(argv, envp, userland, k);
      if i < |argv| { PlaceAppend(argv, envp, 0); } else { PlaceAppend(argv, envp, i - |argv|); }
    }
  }

  // ---------------------------------------------------------------- building the image, page by page

  lemma {:induction false} ZeroesAppend(n: nat, k: nat)
    ensures Zeroes(n) + Zeroes(k) == Zeroes(n + k)
  {
    if n > 0 {
      ZeroesAppend(n - 1, k);
      assert Zeroes(n) + Zeroes(k) == [0] + (Zeroes(n - 1) + Zeroes(k));
    } else {
      assert Zeroes(0) + Zeroes(k) == Zeroes(k);
    }
  }

  lemma ZeroesDrop(n: nat, k: nat)
    requires k <= n
    ensures Zeroes(n)[k..] == Zeroes(n - k)
  {
    ZeroesAppend(k, n - k);
  }

  // One round of copystr.
  lemma CopyStep(s: Bytes, left: nat, avail: nat)
    requires left <= |s| && 0 < avail
    ensures left < avail ==> Round(s, left, avail) == s[..left]
    ensures left >= avail ==> avail <= |s| && Round(s, left, avail) == s[..avail] + Round(s, left - avail, PAGESIZE)
  {
    if left == avail { assert Round(s, 0, PAGESIZE) == []; }
  }

  function Round(s: Bytes, left: nat, avail: nat): Bytes
    requires left <= |s| && 0 < avail
  {
    if left < avail then s[..left] else s[..avail] + Restarted(s, left - avail)
  }

  lemma RoundIsCopied(s: Bytes, avail: nat)
    requires avail > 0
    ensures Round(s, |s|, avail) == Copied(s, avail)
  {
    if |s| <= avail { assert s[..|s|] == s; }
    if |s| == avail { assert Restarted(s, 0) == []; }
  }

  class Stack {
    var mem: Bytes         // the pages added so far, one after the other; a_page is the last of them
    var pageNr: int
    var offset: nat        // offset_within_page
    ghost var skipped: nat // bytes before the image
    ghost var out: Bytes   // what has been written

    ghost predicate Valid()
      reads this
    {
      && |mem| >= PAGESIZE && offset <= PAGESIZE
      && |mem| % PAGESIZE == 0 && skipped + |out| == |mem| - PAGESIZE + offset
      && mem == Zeroes(skipped) + out + Zeroes(PAGESIZE - offset)
    }

    // openbsd_aout__addstackpage, for the first page and for the following ones
    constructor (pageNr: int, offset: nat)
      requires offset < PAGESIZE
      ensures Valid() && this.pageNr == pageNr && this.offset == offset && skipped == offset && out == []
      ensures |mem| == PAGESIZE
    {
      this.pageNr, this.offset, skipped, out := pageNr, offset, offset, [];
      mem := Zeroes(PAGESIZE);
      new;
      ZeroesAppend(offset, PAGESIZE - offset);
      assert Zeroes(offset) + [] + Zeroes(PAGESIZE - offset) == Zeroes(PAGESIZE);
    }

    method AddPage()
      requires Valid() && offset == PAGESIZE
      modifies this
      ensures Valid() && offset == 0 && pageNr == old(pageNr) + 1 && |mem| == old(|mem|) + PAGESIZE
      ensures out == old(out) && skipped == old(skipped)
    {
      pageNr := pageNr + 1;
      mem := mem + Zeroes(PAGESIZE);
      offset := 0;
      assert Zeroes(0) == [];
    }

    // memcpy to the current page
    method Write(b: Bytes)
      requires Valid() && offset + |b| <= PAGESIZE
      modifies this
      ensures Valid() && offset == old(offset) + |b| && out == old(out) + b
      ensures pageNr == old(pageNr) && |mem| == old(|mem|) && skipped == old(skipped)
    {
      var at := |mem| - PAGESIZE + offset;
      ghost var mem0, left := mem, PAGESIZE - offset;
      ZeroesDrop(left, |b|);
      mem := mem[..at] + b + mem[at + |b|..];
      Rewritten(Zeroes(skipped) + out, Zeroes(left), b);
      offset := offset + |b|;
      out := out + b;
      assert Zeroes(skipped) + (out[..|out| - |b|] + b) == Zeroes(skipped) + out[..|out| - |b|] + b;
    }

    method NextPageIfFull()
      requires Valid()
      modifies this
      ensures Valid() && out == old(out) && skipped == old(skipped) && offset < PAGESIZE
      ensures if old(offset) == PAGESIZE then offset == 0 && pageNr == old(pageNr) + 1 && |mem| == old(|mem|) + PAGESIZE
              else offset == old(offset) && pageNr == old(pageNr) && |mem| == old(|mem|)
    {
      if offset >= PAGESIZE { AddPage(); }
    }

    // How far the next byte is from the start of the first page.
    ghost function Position(): int
      reads this
    {
      |mem| - PAGESIZE + offset
    }

    // openbsd_aout__copystr, for a string with its zero
    method CopyStr(s: Bytes)
      requires Valid() && offset < PAGESIZE && s != []
      modifies this
      ensures Valid() && offset < PAGESIZE && skipped == old(skipped)
      ensures out == old(out) + Copied(s, PAGESIZE - old(offset))
      ensures |mem| / PAGESIZE - old(|mem|) / PAGESIZE == pageNr - old(pageNr)
    {
      hide Restarted, Copied, Round, Valid;
      var strlength := |s|;
      RoundIsCopied(s, PAGESIZE - offset);
      ghost var written: Bytes := [];
      assert old(out) + [] == out;
      while strlength > 0
        invariant Valid() && offset < PAGESIZE && skipped == old(skipped) && 0 <= strlength <= |s|
        invariant out == old(out) + written
        invariant Copied(s, PAGESIZE - old(offset)) == written + Round(s, strlength, PAGESIZE - offset)
        invariant |mem| / PAGESIZE - old(|mem|) / PAGESIZE == pageNr - old(pageNr)
      {
        var avail := PAGESIZE - offset;
        CopyStep(s, strlength, avail);
        if avail > strlength {
          Write(s[..strlength]);
          assert old(out) + written + s[..strlength] == old(out) + (written + s[..strlength]);
          return;
        }
        Write(s[..avail]);
        strlength := strlength - avail;
        AddPage();
        assert old(out) + written + s[..avail] == old(out) + (written + s[..avail]);
        written := written + s[..avail];
      }
      RoundNothing(s, PAGESIZE - offset);
    }
  }

  lemma RoundNothing(s: Bytes, avail: nat)
    requires avail > 0
    ensures Round(s, 0, avail) == []
  {}

  lemma Rewritten(a: Bytes, z: Bytes, b: Bytes)
    requires |b| <= |z|
    ensures (a + z)[..|a|] + b + (a + z)[|a| + |b|..] == a + b + z[|b|..]
  {}

  method TotalLength(ss: seq<Bytes>) returns (n: nat)
    ensures n == Total(ss)
  {
    n := 0;
    for i := 0 to |ss|
      invariant n == Total(ss[..i])
    {
      TotalAppend(ss[..i], ss[i]);
      assert ss[..i + 1] == ss[..i] + [ss[i]];
      n := n + |ss[i]| + 1;
    }
    assert ss[..|ss|] == ss;
  }

  lemma {:induction false} TotalAppend(ss: seq<Bytes>, s: Bytes)
    ensures Total(ss + [s]) == Total(ss) + |s| + 1
  {
    if ss == [] {
      assert (ss + [s])[1..] == [];
    } else {
      assert (ss + [s])[1..] == ss[1..] + [s];
      TotalAppend(ss[1..], s);
    }
  }

  // What holds while a stack is filled: n bytes have been written after the first `off`.
  ghost predicate Filling(st: Stack, off: nat, out: Bytes, firstPage: int)
    reads st
  {
    && st.Valid() && st.offset < PAGESIZE && st.skipped == off && st.out == out
    && st.pageNr - firstPage == |st.mem| / PAGESIZE - 1
  }

  method PutWord(st: Stack, w: nat, ghost off: nat, ghost out: Bytes, ghost firstPage: int)
    requires Filling(st, off, out, firstPage) && w < WORD && off % 4 == 0 && |out| % 4 == 0
    modifies st
    ensures Filling(st, off, out + Le(w), firstPage) && |out + Le(w)| % 4 == 0
  {
    WordsFit(st.mem, off, out, st.offset);
    st.Write(Le(w));
    st.NextPageIfFull();
  }

  lemma WordsFit(mem: Bytes, off: nat, out: Bytes, offset: nat)
    requires |mem| % PAGESIZE == 0 && off + |out| == |mem| - PAGESIZE + offset && offset < PAGESIZE
    requires off % 4 == 0 && |out| % 4 == 0
    ensures offset + 4 <= PAGESIZE
  {
    assert |mem| == |mem| / PAGESIZE * PAGESIZE;
    assert offset % 4 == 0;
  }

  // The pointers to the strings of ss, of which the first is at `first`, and a null.
  method PutPointers(st: Stack, ss: seq<Bytes>, first: nat, ghost off: nat, ghost out: Bytes, ghost firstPage: int)
    requires Filling(st, off, out, firstPage) && off % 4 == 0 && |out| % 4 == 0 && first + Total(ss) <= WORD
    requires first < WORD
    modifies st
    ensures AreWords(Pointers(ss, first, |ss|)) && AreWords(Pointers(ss, first, |ss|) + [0])
    ensures Filling(st, off, out + Words(Pointers(ss, first, |ss|) + [0]), firstPage)
    ensures |out + Words(Pointers(ss, first, |ss|) + [0])| % 4 == 0
  {
    hide Filling, Place, Total, Le, Words, AreWords, Pointers;
    var address := first;
    ghost var done := out;
    PointersStart(ss, first, out);
    for i := 0 to |ss|
      invariant Filling(st, off, done, firstPage) && |done| % 4 == 0
      invariant AreWords(Pointers(ss, first, i))
      invariant done == out + Words(Pointers(ss, first, i)) && address == (first + Place(ss, i)) % WORD
    {
      PointersStep(ss, first, i, out);
      PutWord(st, address, off, done, firstPage);
      done := done + Le(address);
      address := (address + |ss[i]| + 1) % WORD;
    }
    address := 0;
    WordsEnd(Pointers(ss, first, |ss|), out);
    PutWord(st, address, off, done, firstPage);
  }

  lemma PointersStart(ss: seq<Bytes>, first: nat, out: Bytes)
    ensures Place(ss, 0) == 0 && AreWords(Pointers(ss, first, 0)) && out + Words(Pointers(ss, first, 0)) == out
  {
    assert Pointers(ss, first, 0) == [] && out + [] == out;
  }

  lemma WordsEnd(ws: seq<nat>, out: Bytes)
    requires AreWords(ws)
    ensures AreWords(ws + [0]) && out + Words(ws) + Le(0) == out + Words(ws + [0])
  {
    hide Words, Le;
    WordsAppend(ws, 0);
    Nested(out, Words(ws), Le(0));
  }

  lemma PointersFit(ss: seq<Bytes>, first: nat, n: nat)
    requires first + Total(ss) <= WORD && n <= |ss|
    ensures AreWords(Pointers(ss, first, n))
  {
    forall i | 0 <= i < n ensures first + Place(ss, i) < WORD { PlaceWithin(ss, i); }
  }

  lemma {:induction false} PlaceNext(ss: seq<Bytes>, i: nat)
    requires i < |ss|
    ensures Place(ss, i + 1) == Place(ss, i) + |ss[i]| + 1
  {
    if i > 0 { PlaceNext(ss[1..], i - 1); }
  }

  lemma PointersStep(ss: seq<Bytes>, first: nat, i: nat, out: Bytes)
    requires i < |ss| && first + Total(ss) <= WORD
    ensures AreWords(Pointers(ss, first, i))
    ensures AreWords(Pointers(ss, first, i + 1))
    ensures (first + Place(ss, i)) % WORD == first + Place(ss, i)
    ensures out + Words(Pointers(ss, first, i)) + Le(first + Place(ss, i)) == out + Words(Pointers(ss, first, i + 1))
    ensures Place(ss, i + 1) == Place(ss, i) + |ss[i]| + 1
  {
    hide Total, Place;
    PointersFit(ss, first, i);
    PointersFit(ss, first, i + 1);
    assert first + Place(ss, i) < WORD by { PlaceWithin(ss, i); }
    PlaceNext(ss, i);
    assert Pointers(ss, first, i + 1) == Pointers(ss, first, i) + [first + Place(ss, i)];
    WordsAppend(Pointers(ss, first, i), first + Place(ss, i));
    Nested(out, Words(Pointers(ss, first, i)), Le(first + Place(ss, i)));
  }

  method PutString(st: Stack, s: Bytes, ghost off: nat, ghost out: Bytes, ghost firstPage: int)
    requires Filling(st, off, out, firstPage)
    modifies st
    ensures Filling(st, off, out + Copied(s + [0], Avail(off + |out|)), firstPage)
  {
    hide Copied, Restarted, Avail;
    AvailIs(st.mem, off, out, st.offset);
    st.CopyStr(s + [0]);
  }

  // The strings themselves.
  method PutStrings(st: Stack, ss: seq<Bytes>, ghost off: nat, ghost out: Bytes, ghost firstPage: int)
    requires Filling(st, off, out, firstPage)
    modifies st
    ensures Filling(st, off, out + Strings(ss, off + |out|), firstPage)
  {
    hide Copied, Strings, Restarted, Filling, Avail, Total;
    ghost var done := out;
    StringsNone(off + |out|);
    assert out + [] == out && ss[..0] == [];
    for i := 0 to |ss|
      invariant Filling(st, off, done, firstPage)
      invariant done == out + Strings(ss[..i], off + |out|)
    {
      StringsStep(ss, i, off, out);
      PutString(st, ss[i], off, done, firstPage);
      done := done + Copied(ss[i] + [0], Avail(off + |done|));
    }
    assert ss[..|ss|] == ss;
  }

  lemma StringsStep(ss: seq<Bytes>, i: nat, off: nat, out: Bytes)
    requires i < |ss|
    ensures
      var done := out + Strings(ss[..i], off + |out|);
      done + Copied(ss[i] + [0], Avail(off + |done|)) == out + Strings(ss[..i + 1], off + |out|)
  {
    hide Copied, Strings, Avail, Total;
    assert ss[..i + 1] == ss[..i] + [ss[i]];
    StringsAppend(ss[..i], [ss[i]], off + |out|);
    var done := out + Strings(ss[..i], off + |out|);
    StringsOne(ss[i], off + |done|);
    Nested(out, Strings(ss[..i], off + |out|), Copied(ss[i] + [0], Avail(off + |done|)));
  }

  lemma Nested(a: Bytes, b: Bytes, c: Bytes)
    ensures a + (b + c) == a + b + c
  {}

  lemma StringsNone(pos: nat)
    ensures Strings([], pos) == []
  {}

  lemma StringsOne(s: Bytes, pos: nat)
    ensures Strings([s], pos) == Copied(s + [0], Avail(pos))
  {
    assert [s][1..] == [] && Strings([], pos + |s| + 1) == [];
  }

  lemma AvailIs(mem: Bytes, off: nat, out: Bytes, offset: nat)
    requires |mem| % PAGESIZE == 0 && |mem| >= PAGESIZE && off + |out| == |mem| - PAGESIZE + offset && offset < PAGESIZE
    ensures Avail(off + |out|) == PAGESIZE - offset
  {
    assert off + |out| == (|mem| / PAGESIZE - 1) * PAGESIZE + offset;
  }

  lemma {:induction false} WordsConcat(ws: seq<nat>, ws': seq<nat>)
    requires AreWords(ws) && AreWords(ws')
    ensures Words(ws + ws') == Words(ws) + Words(ws')
  {
    if ws == [] {
      assert ws + ws' == ws';
    } else {
      assert (ws + ws')[1..] == ws[1..] + ws' && (ws + ws')[0] == ws[0];
      WordsConcat(ws[1..], ws');
    }
  }

  lemma WordsOne(w: nat)
    requires w < WORD
    ensures AreWords([w]) && Words([w]) == [] + Le(w)
  {
    hide Le;
    assert [w][1..] == [] && Words([]) == [];
  }

  lemma Together(a: seq<nat>, b: seq<nat>, w: nat)
    ensures a + (b + [w]) == a + b + [w]
  {}

  lemma AreWordsTogether(argc: nat, a: seq<nat>, e: seq<nat>)
    requires argc < WORD && AreWords(a) && AreWords(e)
    ensures AreWords([argc]) && AreWords(a + [0]) && AreWords(e + [0]) && AreWords([argc] + a + [0])
    ensures AreWords([argc] + (a + [0])) && AreWords(Header(argc, a, e))
  {}

  // The words of the header one after the other.
  lemma HeaderPieces(argc: nat, a: seq<nat>, e: seq<nat>)
    requires argc < WORD
    requires AreWords(a) && AreWords(e)
    ensures [] + Le(argc) + Words(a + [0]) + Words(e + [0]) == Words(Header(argc, a, e))
  {
    hide Le, Words, AreWords;
    WordsOne(argc);
    Together([argc] + a + [0], e, 0);
    Together([argc], a, 0);
    AreWordsTogether(argc, a, e);
    WordsConcat([argc], a + [0]);
    WordsConcat([argc] + (a + [0]), e + [0]);
  }

  // The length is rounded up with bit operations.
  lemma Rounding(n: nat, size: nat)
    requires size == if n % 4 != 0 then n / 4 * 4 + 3 + 1 else n
    ensures size == (n + 3) / 4 * 4
  {}

  lemma Sizes(argv: seq<Bytes>, envp: seq<Bytes>, size: nat)
    requires size == (4 + 4 * (|argv| + 1) + 4 * (|envp| + 1) + Total(argv) + Total(envp) + 4 + 3) / 4 * 4
    ensures size == Length(argv, envp)
  {
    hide Total;
  }

  lemma Pages(size: nat, pages: nat)
    requires pages == if size % PAGESIZE != 0 then size / PAGESIZE + 1 else size / PAGESIZE
    ensures pages == PageCount(size)
  {}

  lemma Starting(argv: seq<Bytes>, envp: seq<Bytes>, userland: nat)
    requires Fits(argv, envp, userland) && userland > 0
    ensures StartOffset(argv, envp) % 4 == 0 && |argv| < WORD
  {
    hide Total;
    assert Length(argv, envp) % 4 == 0;
  }

  // The addresses of the first argument and of the first environment string, modulo 2^32.
  lemma Addresses(argv: seq<Bytes>, envp: seq<Bytes>, userland: nat, size: nat, first: nat, second: nat)
    requires Fits(argv, envp, userland) && userland > 0 && size == Length(argv, envp)
    requires first == (2 * WORD - userland - size + 4 + 4 * (|argv| + 1) + 4 * (|envp| + 1)) % WORD
    requires second == (2 * WORD - userland - size + 4 + 4 * (|argv| + 1) + 4 * (|envp| + 1) + Total(argv)) % WORD
    ensures first == Base(argv, envp, userland) + HeaderLength(argv, envp) && first + Total(argv) < WORD
    ensures second == first + Total(argv) && second + Total(envp) < WORD
  {
    hide Total;
    var slack := Slack(argv, envp);
    assert size == HeaderLength(argv, envp) + Total(argv) + Total(envp) + slack;
    Wrapped(WORD - userland - size + HeaderLength(argv, envp));
    Wrapped(WORD - userland - size + HeaderLength(argv, envp) + Total(argv));
  }

  lemma Wrapped(n: nat)
    requires n < WORD
    ensures (WORD + n) % WORD == n
  {}

  // Once everything is written what is left of the last page is the slack.
  lemma Complete(argv: seq<Bytes>, envp: seq<Bytes>, userland: nat, mem: Bytes, offset: nat)
    requires Fits(argv, envp, userland) && userland > 0
    requires |mem| % PAGESIZE == 0 && |mem| >= PAGESIZE && offset < PAGESIZE
    requires StartOffset(argv, envp) + HeaderLength(argv, envp) + Total(argv) + Total(envp) == |mem| - PAGESIZE + offset
    ensures PAGESIZE - offset == Slack(argv, envp)
    ensures |mem| / PAGESIZE == PageCount(Length(argv, envp))
  {
    hide Total, HeaderLength, Length, PageCount;
    LastPage(|mem| / PAGESIZE, PageCount(Length(argv, envp)), offset, Slack(argv, envp));
  }

  lemma LastPage(n: nat, pages: nat, offset: nat, slack: nat)
    requires n * PAGESIZE - PAGESIZE + offset + slack == pages * PAGESIZE && offset < PAGESIZE && 4 <= slack < 8
    ensures n == pages && offset + slack == PAGESIZE
  {}

  // What is left to write after the header.
  lemma BothStrings(argv: seq<Bytes>, envp: seq<Bytes>, header: Bytes, off: nat)
    ensures
      var out := header + Strings(argv, off + |header|);
      && out + Strings(envp, off + |out|) == header + Strings(argv + envp, off + |header|)
      && |out + Strings(envp, off + |out|)| == |header| + Total(argv) + Total(envp)
  {
    hide Strings, Total;
    StringsAppend(argv, envp, off + |header|);
    Nested(header, Strings(argv, off + |header|), Strings(envp, off + |header| + Total(argv)));
  }

  lemma Filled(st: Stack, argv: seq<Bytes>, envp: seq<Bytes>, userland: nat, firstPage: int)
    requires Fits(argv, envp, userland) && userland > 0
    requires AreWords(HeaderWords(argv, envp, userland))
    requires
      var off := StartOffset(argv, envp);
      Filling(st, off, Words(HeaderWords(argv, envp, userland)) + Strings(argv + envp, off + HeaderLength(argv, envp)),
              firstPage)
    ensures st.mem == Zeroes(StartOffset(argv, envp)) + Image(argv, envp, userland)
    ensures st.pageNr == firstPage + PageCount(Length(argv, envp)) - 1
  {
    hide Total, Length, HeaderLength, HeaderWords, Strings, Words, StartOffset, PageCount;
    StringsAppend(argv, envp, 0);
    Complete(argv, envp, userland, st.mem, st.offset);
    var off := StartOffset(argv, envp);
    assert st.mem == Zeroes(off) + st.out + Zeroes(Slack(argv, envp));
    assert Zeroes(off) + st.out + Zeroes(Slack(argv, envp)) == Zeroes(off) + (st.out + Zeroes(Slack(argv, envp)));
  }

  method PutBothStrings(st: Stack, argv: seq<Bytes>, envp: seq<Bytes>, ghost off: nat, ghost out: Bytes,
                        ghost firstPage: int)
    requires Filling(st, off, out, firstPage)
    modifies st
    ensures Filling(st, off, out + Strings(argv + envp, off + |out|), firstPage)
  {
    hide Filling, Strings;
    BothStrings(argv, envp, out, off);
    PutStrings(st, argv, off, out, firstPage);
    PutStrings(st, envp, off, out + Strings(argv, off + |out|), firstPage);
  }

  // openbsd_aout_setupargvenvp
  method SetupArgvEnvp(argv: seq<Bytes>, envp: seq<Bytes>, userland: nat, stackPages: nat)
    returns (st: Stack, size: nat)
    requires Fits(argv, envp, userland) && userland > 0
    ensures fresh(st) && size == Length(argv, envp) && st.pageNr == stackPages - 1
    ensures st.mem == Zeroes(StartOffset(argv, envp)) + Image(argv, envp, userland)
  {
    hide Length, Total, Filling, Image, Strings, Words, HeaderWords, HeaderLength, StartOffset, PageCount, Pointers, Le,
         Base, Fits, AreWords, StartOffset;
    var lengthOfArgstrs := TotalLength(argv);
    var argc := |argv|;
    var lengthOfEnvstrs := TotalLength(envp);
    var envcount := |envp|;
    size := 4 + 4 * (argc + 1) + 4 * (envcount + 1) + lengthOfArgstrs + lengthOfEnvstrs + 4;
    ghost var n := size;
    if size % 4 != 0 { size := size / 4 * 4 + 3 + 1; }
    Rounding(n, size);
    Sizes(argv, envp, size);
    var pages := size / PAGESIZE;
    if size % PAGESIZE != 0 { pages := pages + 1; }
    Pages(size, pages);
    OffsetIs(argv, envp);
    var offset := pages * PAGESIZE - size;
    st := new Stack(stackPages - pages, offset);
    ghost var off, firstPage := offset, stackPages - pages;
    Starting(argv, envp, userland);
    Begun(st, off, firstPage);
    PutWord(st, argc, off, [], firstPage);
    FitsIs(argv, envp, userland);
    var address := (2 * WORD - userland - size + 4 + 4 * (argc + 1) + 4 * (envcount + 1)) % WORD;
    var address' := (2 * WORD - userland - size + 4 + 4 * (argc + 1) + 4 * (envcount + 1) + lengthOfArgstrs) % WORD;
    Addresses(argv, envp, userland, size, address, address');
    ghost var out := [] + Le(argc);
    PutPointers(st, argv, address, off, out, firstPage);
    out := out + Words(Pointers(argv, address, argc) + [0]);
    PutPointers(st, envp, address', off, out, firstPage);
    HeaderIs(argv, envp, userland, address);
    out := out + Words(Pointers(envp, address', envcount) + [0]);
    PutBothStrings(st, argv, envp, off, out, firstPage);
    Filled(st, argv, envp, userland, firstPage);
  }

  lemma HeaderWordsAre(argv: seq<Bytes>, envp: seq<Bytes>, userland: nat)
    requires Fits(argv, envp, userland)
    ensures
      var first := Base(argv, envp, userland) + HeaderLength(argv, envp);
      HeaderWords(argv, envp, userland) ==
      Header(|argv|, Pointers(argv, first, |argv|), Pointers(envp, first + Total(argv), |envp|))
  {
    hide Header, Pointers, Total, Base, HeaderLength;
  }

  lemma HeaderIs(argv: seq<Bytes>, envp: seq<Bytes>, userland: nat, first: nat)
    requires Fits(argv, envp, userland) && userland > 0 && |argv| < WORD
    requires first == Base(argv, envp, userland) + HeaderLength(argv, envp)
    requires first + Total(argv) < WORD && first + Total(argv) + Total(envp) < WORD
    ensures
      var ws, a, e := HeaderWords(argv, envp, userland), Pointers(argv, first, |argv|),
                      Pointers(envp, first + Total(argv), |envp|);
      && AreWords(ws) && |Words(ws)| == HeaderLength(argv, envp)
      && AreWords(a) && AreWords(e)
      && [] + Le(|argv|) + Words(a + [0]) + Words(e + [0]) == Words(ws)
  {
    hide Words, Total, Pointers, Le, Base, HeaderLength, HeaderWords, AreWords, Header;
    HeaderFits(argv, envp, userland);
    HeaderWordsAre(argv, envp, userland);
    PointersFit(argv, first, |argv|);
    PointersFit(envp, first + Total(argv), |envp|);
    HeaderPieces(|argv|, Pointers(argv, first, |argv|), Pointers(envp, first + Total(argv), |envp|));
  }

  lemma FitsIs(argv: seq<Bytes>, envp: seq<Bytes>, userland: nat)
    requires Fits(argv, envp, userland)
    ensures userland + Length(argv, envp) <= WORD
  {}

  lemma OffsetIs(argv: seq<Bytes>, envp: seq<Bytes>)
    ensures StartOffset(argv, envp) == PageCount(Length(argv, envp)) * PAGESIZE - Length(argv, envp)
    ensures StartOffset(argv, envp) < PAGESIZE
  {}

  lemma Begun(st: Stack, off: nat, firstPage: int)
    requires st.Valid() && st.offset == st.skipped == off && st.out == [] && |st.mem| == PAGESIZE
    requires st.pageNr == firstPage
    requires off < PAGESIZE
    ensures Filling(st, off, [], firstPage)
  {}
}
