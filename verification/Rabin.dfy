/** Rabin fingerprints with lookup tables (rabin.c 24-100). A fingerprint is a polynomial over GF(2) of degree below 32,
    kept in the bits of a word; arithmetic is modulo t^32 + IRRPOLY. */
module Rabin {
  import opened Common
  import opened Chunking

  type Word = bv32

  const IRRPOLY: Word := 0x45c2b6a1
  const NWINDOW: nat := 32
  const RABIN_MASK: Word := 0xfff

  /** Addition. */
  function Plus(x: Word, y: Word): Word {
    x ^ y
  }

  lemma PlusLaws(x: Word, y: Word, z: Word)
    ensures Plus(Plus(x, y), z) == Plus(x, Plus(y, z))
    ensures Plus(x, y) == Plus(y, x)
    ensures Plus(x, 0) == x && Plus(x, x) == 0
  {
  }

  lemma Shuffle(a: Word, b: Word, c: Word, d: Word)
    ensures Plus(Plus(a, b), Plus(c, d)) == Plus(Plus(a, c), Plus(b, d))
  {
    hide Plus;
    PlusLaws(a, b, Plus(c, d));
    PlusLaws(b, c, d);
    PlusLaws(c, b, d);
    PlusLaws(a, c, Plus(b, d));
  }

  function Shl(x: Word): Word {
    x << 1
  }

  predicate HighBit(x: Word) {
    x >> 31 != 0
  }

  /** What is added when the highest bit is shifted out. */
  function Feedback(high: bool): Word {
    if high then IRRPOLY else 0
  }

  /** Multiplication by t. */
  function TimesT(x: Word): Word {
    Plus(Shl(x), Feedback(HighBit(x)))
  }

  /** Multiplication by t^k, one bit at a time. */
  function TimesTo(x: Word, k: nat): Word
    decreases k
  {
    if k == 0 then x else TimesTo(TimesT(x), k - 1)
  }

  lemma ShlLinear(x: Word, y: Word)
    ensures Shl(Plus(x, y)) == Plus(Shl(x), Shl(y))
  {
  }

  lemma FeedbackLinear(a: bool, b: bool)
    ensures Feedback(a != b) == Plus(Feedback(a), Feedback(b))
  {
  }

  lemma HighBitLinear(x: Word, y: Word)
    ensures HighBit(Plus(x, y)) == (HighBit(x) != HighBit(y))
  {
  }

  lemma TimesTLinear(x: Word, y: Word)
    ensures TimesT(Plus(x, y)) == Plus(TimesT(x), TimesT(y))
  {
    hide Plus, Shl, Feedback, HighBit;
    ShlLinear(x, y);
    HighBitLinear(x, y);
    FeedbackLinear(HighBit(x), HighBit(y));
    Shuffle(Shl(x), Shl(y), Feedback(HighBit(x)), Feedback(HighBit(y)));
  }

  lemma {:induction false} Linear(x: Word, y: Word, k: nat)
    ensures TimesTo(Plus(x, y), k) == Plus(TimesTo(x, k), TimesTo(y, k))
    decreases k
  {
    hide TimesT, Plus;
    if k > 0 {
      TimesTLinear(x, y);
      Linear(TimesT(x), TimesT(y), k - 1);
    }
  }

  lemma {:induction false} Compose(x: Word, j: nat, k: nat)
    ensures TimesTo(TimesTo(x, j), k) == TimesTo(x, j + k)
    decreases j
  {
    hide TimesT;
    if j > 0 {
      Compose(TimesT(x), j - 1, k);
    }
  }

  lemma Times8(x: Word)
    ensures TimesTo(x, 8) == TimesT(TimesT(TimesT(TimesT(TimesT(TimesT(TimesT(TimesT(x))))))))
  {
    hide TimesT;
    Times4(x);
    Times4(TimesTo(x, 4));
    Compose(x, 4, 4);
  }

  lemma Times4(x: Word)
    ensures TimesTo(x, 4) == TimesT(TimesT(TimesT(TimesT(x))))
  {
    hide TimesT;
    var a := TimesT(x);
    var b := TimesT(a);
    var c := TimesT(b);
    assert TimesTo(c, 1) == TimesT(c);
    assert TimesTo(b, 2) == TimesTo(c, 1);
    assert TimesTo(a, 3) == TimesTo(b, 2);
  }

  /** Without high bits there is nothing to reduce. */
  lemma EightShifts(x: Word)
    requires x & 0xff000000 == 0
    ensures TimesT(TimesT(TimesT(TimesT(TimesT(TimesT(TimesT(TimesT(x)))))))) == x << 8
  {
  }

  lemma Shift8(x: Word)
    requires x & 0xff000000 == 0
    ensures TimesTo(x, 8) == x << 8
  {
    Times8(x);
    EightShifts(x);
    hide TimesT, TimesTo;
  }

  // ---------------------------------------------------------------- the tables

  type Table = seq<Word>

  function Entry(tab: Table, b: bv8): Word
    requires |tab| == 256
  {
    tab[b as int]
  }

  /** fpreduce: multiplication by t^32. */
  method Reduce(x: Word) returns (r: Word)
    ensures r == TimesTo(x, 32)
  {
    hide TimesT;
    r := x;
    var i := 32;
    while i != 0
      invariant 0 <= i <= 32 && TimesTo(r, i) == TimesTo(x, 32)
    {
      var was := r;
      if r >> 31 != 0 {
        r := r << 1;
        r := r ^ IRRPOLY;
      } else {
        r := r << 1;
      }
      IsTimesT(was, r);
      i := i - 1;
    }
  }

  lemma IsTimesT(x: Word, y: Word)
    requires y == if x >> 31 != 0 then (x << 1) ^ IRRPOLY else x << 1
    ensures y == TimesT(x)
  {
    TimesTIs(x);
    hide TimesT;
  }

  lemma TimesTIs(x: Word)
    ensures TimesT(x) == if HighBit(x) then Plus(Shl(x), IRRPOLY) else Shl(x)
  {
    hide Plus, Shl, HighBit;
    PlusLaws(Shl(x), 0, 0);
  }

  ghost predicate IsReductionTable(tab: Table) {
    |tab| == 256 && forall b: bv8 :: Entry(tab, b) == TimesTo(b as Word, 32)
  }

  lemma ByteIndex(b: bv8)
    ensures (b as int) as bv8 == b && b as int < 256
  {
  }

  /** fpmkredtab with s = 0. */
  method MakeReductionTable() returns (tab: Table)
    ensures IsReductionTable(tab)
  {
    hide TimesTo;
    tab := [];
    while |tab| < 256
      invariant |tab| <= 256
      invariant forall j :: 0 <= j < |tab| ==> tab[j] == TimesTo((j as bv8) as Word, 32)
    {
      var r := Reduce((|tab| as bv8) as Word);
      tab := tab + [r];
    }
    forall b: bv8
      ensures Entry(tab, b) == TimesTo(b as Word, 32)
    {
      ByteIndex(b);
    }
  }

  lemma Low8(b: bv8)
    ensures (b as Word) & 0xff000000 == 0 && ((b as Word) << 8) & 0xff000000 == 0
    ensures ((b as Word) << 16) & 0xff000000 == 0
    ensures ((b as Word) << 8) << 8 == (b as Word) << 16 && ((b as Word) << 16) << 8 == (b as Word) << 24
  {
  }

  /** Reducing a byte that was shifted to the top is one table entry. */
  lemma TopByte(b: bv8)
    ensures TimesTo(AtTop(b), 8) == TimesTo(b as Word, 32)
  {
    hide TimesTo;
    var x := b as Word;
    Low8(b);
    Shift8(x);
    Shift8(x << 8);
    Shift8(x << 16);
    Compose(x, 8, 8);
    Compose(x, 16, 8);
    Compose(x, 24, 8);
  }

  /** One byte enters the fingerprint: h * t^8 + b. */
  function Append(h: Word, b: bv8): Word {
    Plus(TimesTo(h, 8), b as Word)
  }

  /** The low three bytes, and the top byte alone. */
  function Low(h: Word): Word {
    h & 0x00ffffff
  }

  function Top(h: Word): bv8 {
    (h >> 24) as bv8
  }

  function AtTop(b: bv8): Word {
    (b as Word) << 24
  }

  function ShiftIn(h: Word, b: bv8): Word {
    (h << 8) | (b as Word)
  }

  function Shl8(h: Word): Word {
    h << 8
  }

  /** The same with the table. */
  function TableAppend(tab: Table, h: Word, b: bv8): Word
    requires |tab| == 256
  {
    Plus(ShiftIn(h, b), Entry(tab, Top(h)))
  }

  lemma SplitTop(h: Word)
    ensures h == Plus(Low(h), AtTop(Top(h))) && Low(h) & 0xff000000 == 0
  {
  }

  lemma DisjointBits(x: Word, y: Word)
    requires x & y == 0
    ensures x | y == Plus(x, y)
  {
  }

  lemma ByteBelow(h: Word, b: bv8)
    ensures (h << 8) & (b as Word) == 0 && Shl8(h) == Shl8(Low(h)) == h << 8
  {
  }

  lemma Join(h: Word, b: bv8, c: Word)
    ensures Plus(ShiftIn(h, b), c) == Plus(Plus(Shl8(Low(h)), c), b as Word)
  {
    ByteBelow(h, b);
    DisjointBits(h << 8, b as Word);
    hide Plus, Low, Shl8;
    PlusLaws(Shl8(h), b as Word, c);
    PlusLaws(b as Word, c, c);
    PlusLaws(Shl8(h), c, b as Word);
  }

  lemma LowShift(h: Word)
    ensures TimesTo(Low(h), 8) == Shl8(Low(h))
  {
    hide TimesTo, Low, Shl8;
    LowIsLow(h);
    Shift8Shl8(Low(h));
  }

  lemma LowIsLow(h: Word)
    ensures Low(h) & 0xff000000 == 0
  {
  }

  lemma Shift8Shl8(x: Word)
    requires x & 0xff000000 == 0
    ensures TimesTo(x, 8) == Shl8(x)
  {
    hide TimesTo;
    Shift8(x);
  }

  /** The table form is the bit-serial reduction, for every fingerprint and byte. */
  lemma TableIsBitSerial(tab: Table, h: Word, b: bv8)
    requires IsReductionTable(tab)
    ensures TableAppend(tab, h, b) == Append(h, b)
  {
    hide TimesTo, Plus, Low, Top, AtTop, ShiftIn, Shl8, Entry;
    SplitTop(h);
    Linear(Low(h), AtTop(Top(h)), 8);
    LowShift(h);
    TopByte(Top(h));
    Join(h, b, Entry(tab, Top(h)));
  }

  // ---------------------------------------------------------------- windows

  /** The fingerprint of a string of bytes. */
  function Fingerprint(bs: seq<bv8>): Word {
    if bs == [] then 0 else Append(Fingerprint(bs[..|bs| - 1]), bs[|bs| - 1])
  }

  lemma {:induction false} TimesZero(k: nat)
    ensures TimesTo(0, k) == 0
    decreases k
  {
    if k > 0 {
      TimesZero(k - 1);
    }
  }

  /** The first byte of a string contributes its multiple by a power of t. */
  lemma {:induction false} FirstByte(x: bv8, rest: seq<bv8>)
    ensures Fingerprint([x] + rest) == Plus(TimesTo(x as Word, 8 * |rest|), Fingerprint(rest))
    decreases |rest|
  {
    hide TimesTo, Plus;
    if rest == [] {
      assert [x] + rest == [x] && [x][..0] == [];
      OneByte(x);
    } else {
      var before, b := rest[..|rest| - 1], rest[|rest| - 1];
      assert ([x] + rest)[..|rest|] == [x] + before;
      FirstByte(x, before);
      var t := TimesTo(x as Word, 8 * |before|);
      Linear(t, Fingerprint(before), 8);
      Compose(x as Word, 8 * |before|, 8);
      PlusLaws(TimesTo(t, 8), TimesTo(Fingerprint(before), 8), b as Word);
    }
  }

  lemma OneByte(x: bv8)
    ensures Append(Fingerprint([]), x) == Plus(TimesTo(x as Word, 0), Fingerprint([]))
  {
    TimesZero(8);
  }

  /** The window table multiplies by t^(8 * (winlen - 1)); with a window length of 0 or 1 not at all. */
  ghost predicate IsWindowTable(tab: Table, winlen: nat) {
    |tab| == 256 && forall b: bv8 :: Entry(tab, b) == TimesTo(b as Word, if winlen == 0 then 0 else 8 * (winlen - 1))
  }

  /** fpwinreduce */
  method WindowReduce(winlen: nat, x: bv8, tab: Table) returns (winval: Word)
    requires IsReductionTable(tab)
    ensures winval == TimesTo(x as Word, if winlen == 0 then 0 else 8 * (winlen - 1))
  {
    hide TimesTo, Plus, ShiftIn, Top, Entry;
    winval := Plus(ShiftIn(0, x), Entry(tab, Top(0)));
    FirstStep(tab, x);
    var i := 1;
    while i < winlen
      invariant 1 <= i && (if winlen == 0 then i == 1 else i <= winlen)
      invariant winval == TimesTo(x as Word, 8 * (i - 1))
    {
      TableIsBitSerial(tab, winval, 0);
      NextStep(x, i);
      winval := Plus(ShiftIn(winval, 0), Entry(tab, Top(winval)));
      i := i + 1;
    }
  }

  lemma FirstStep(tab: Table, x: bv8)
    requires IsReductionTable(tab)
    ensures TableAppend(tab, 0, x) == x as Word == TimesTo(x as Word, 0)
  {
    TableIsBitSerial(tab, 0, x);
    TimesZero(8);
  }

  lemma NextStep(x: bv8, i: nat)
    requires i > 0
    ensures Append(TimesTo(x as Word, 8 * (i - 1)), 0) == TimesTo(x as Word, 8 * i)
  {
    hide TimesTo, Plus;
    Compose(x as Word, 8 * (i - 1), 8);
    PlusLaws(TimesTo(x as Word, 8 * i), 0, 0);
  }

  /** fpmkwinredtab */
  method MakeWindowTable(winlen: nat, tab: Table) returns (wintab: Table)
    requires IsReductionTable(tab)
    ensures IsWindowTable(wintab, winlen)
  {
    hide TimesTo, IsReductionTable;
    var k := if winlen == 0 then 0 else 8 * (winlen - 1);
    wintab := [];
    while |wintab| < 256
      invariant |wintab| <= 256
      invariant forall j :: 0 <= j < |wintab| ==> wintab[j] == TimesTo((j as bv8) as Word, k)
    {
      var w := WindowReduce(winlen, |wintab| as bv8, tab);
      wintab := wintab + [w];
    }
    forall b: bv8
      ensures Entry(wintab, b) == TimesTo(b as Word, k)
    {
      ByteIndex(b);
    }
  }

  /** The hash after the first i bytes, for i >= NWINDOW. */
  function Roll(tab: Table, wintab: Table, p: seq<bv8>, i: nat): Word
    requires |tab| == |wintab| == 256 && NWINDOW <= i <= |p|
  {
    if i == NWINDOW then Fill(tab, p[..NWINDOW])
    else TableAppend(tab, Plus(Roll(tab, wintab, p, i - 1), Entry(wintab, p[i - 1 - NWINDOW])), p[i - 1])
  }

  function Fill(tab: Table, p: seq<bv8>): Word
    requires |tab| == 256
  {
    if p == [] then 0 else TableAppend(tab, Fill(tab, p[..|p| - 1]), p[|p| - 1])
  }

  lemma {:induction false} FillIsFingerprint(tab: Table, p: seq<bv8>)
    requires IsReductionTable(tab)
    ensures Fill(tab, p) == Fingerprint(p)
  {
    hide TableAppend, Append;
    if p != [] {
      FillIsFingerprint(tab, p[..|p| - 1]);
      TableIsBitSerial(tab, Fingerprint(p[..|p| - 1]), p[|p| - 1]);
    }
  }

  /** With tables made for windows of NWINDOW bytes, the hash at every step is the fingerprint of exactly the last
      NWINDOW bytes. */
  lemma {:induction false} RollIsWindow(tab: Table, wintab: Table, p: seq<bv8>, i: nat)
    requires IsReductionTable(tab) && IsWindowTable(wintab, NWINDOW) && NWINDOW <= i <= |p|
    ensures Roll(tab, wintab, p, i) == Fingerprint(p[i - NWINDOW..i])
    decreases i
  {
    hide TableAppend, Append, TimesTo, Plus, Entry, Fingerprint;
    if i == NWINDOW {
      FillIsFingerprint(tab, p[..NWINDOW]);
    } else {
      RollIsWindow(tab, wintab, p, i - 1);
      var x, middle, b := p[i - 1 - NWINDOW], p[i - NWINDOW..i - 1], p[i - 1];
      assert p[i - 1 - NWINDOW..i - 1] == [x] + middle;
      FirstByte(x, middle);
      var out := TimesTo(x as Word, 8 * |middle|);
      PlusLaws(Fingerprint(middle), out, out);
      PlusLaws(out, Fingerprint(middle), out);
      PlusLaws(out, out, Fingerprint(middle));
      TableIsBitSerial(tab, Fingerprint(middle), b);
      FingerprintSnoc(middle, b);
      assert p[i - NWINDOW..i] == middle + [b];
    }
  }

  lemma FingerprintSnoc(bs: seq<bv8>, b: bv8)
    ensures Fingerprint(bs + [b]) == Append(Fingerprint(bs), b)
  {
    assert (bs + [b])[..|bs|] == bs;
  }

  lemma {:induction false} Injective(x: Word, y: Word, k: nat)
    requires TimesTo(x, k) == TimesTo(y, k)
    ensures x == y
    decreases k
  {
    hide TimesT;
    if k > 0 {
      Injective(TimesT(x), TimesT(y), k - 1);
      InjectiveOnce(x, y);
    }
  }

  /** Division by t: the lowest bit tells whether IRRPOLY, which is odd, was added. */
  function DividedByT(y: Word): Word {
    if y & 1 == 1 then ((y ^ IRRPOLY) >> 1) | 0x80000000 else y >> 1
  }

  lemma ShiftBack(x: Word)
    ensures x >> 31 == 1 ==> ((x << 1) >> 1) | 0x80000000 == x
    ensures x >> 31 != 1 ==> (x << 1) >> 1 == x
  {
  }

  lemma LowBit(x: Word)
    ensures (x << 1) & 1 == 0 && ((x << 1) ^ IRRPOLY) & 1 == 1
  {
  }

  lemma XorBack(y: Word)
    ensures (y ^ IRRPOLY) ^ IRRPOLY == y
  {
  }

  lemma Undo(x: Word)
    ensures DividedByT(TimesT(x)) == x
  {
    ShiftBack(x);
    LowBit(x);
    XorBack(x << 1);
  }

  lemma InjectiveOnce(x: Word, y: Word)
    ensures TimesT(x) == TimesT(y) ==> x == y
  {
    Undo(x);
    Undo(y);
    hide TimesT, DividedByT;
  }

  lemma PlusCancels(x: Word, y: Word, z: Word)
    ensures Plus(x, z) == Plus(y, z) ==> x == y
    ensures Plus(z, x) == Plus(z, y) ==> x == y
  {
  }

  /** The hash is right so far: at every step up to n it is the fingerprint of the last NWINDOW bytes. */
  ghost predicate WindowUpTo(tab: Table, wintab: Table, p: seq<bv8>, n: nat)
    requires |tab| == |wintab| == 256 && NWINDOW <= n <= |p|
  {
    forall i :: NWINDOW <= i <= n ==> Roll(tab, wintab, p, i) == Fingerprint(p[i - NWINDOW..i])
  }

  /** The callers make the tables with a window length of 0. Then a step takes a right hash to a right one exactly if
      multiplying the byte that leaves by t^248 does not change it. */
  lemma WindowMove(tab: Table, wintab: Table, p: seq<bv8>, i: nat)
    requires IsReductionTable(tab) && IsWindowTable(wintab, 0) && NWINDOW <= i < |p|
    requires Roll(tab, wintab, p, i) == Fingerprint(p[i - NWINDOW..i])
    ensures Roll(tab, wintab, p, i + 1) == Fingerprint(p[i + 1 - NWINDOW..i + 1])
            <==> TimesTo(p[i - NWINDOW] as Word, 8 * (NWINDOW - 1)) == p[i - NWINDOW] as Word
  {
    hide TableAppend, TimesTo, Plus, Entry, Fingerprint;
    var x, middle, b := p[i - NWINDOW], p[i + 1 - NWINDOW..i], p[i];
    assert p[i - NWINDOW..i] == [x] + middle && p[i + 1 - NWINDOW..i + 1] == middle + [b];
    FirstByte(x, middle);
    FingerprintSnoc(middle, b);
    var out, m, gone := TimesTo(x as Word, 8 * |middle|), Fingerprint(middle), Entry(wintab, x);
    PlainEntry(wintab, x);
    var h := Plus(Plus(out, m), gone);
    TableIsBitSerial(tab, h, b);
    PlusCancels(TimesTo(h, 8), TimesTo(m, 8), b as Word);
    if TimesTo(h, 8) == TimesTo(m, 8) {
      Injective(h, m, 8);
    }
    Leftover(out, m, gone);
  }

  /** With tables for a window length of 0, the hash is the fingerprint of the last NWINDOW bytes at every step exactly
      if every byte that leaves the window is zero. */
  lemma {:induction false} WindowLengthZero(tab: Table, wintab: Table, p: seq<bv8>, n: nat)
    requires IsReductionTable(tab) && IsWindowTable(wintab, 0) && NWINDOW <= n <= |p|
    ensures WindowUpTo(tab, wintab, p, n) <==> forall j :: 0 <= j < n - NWINDOW ==> p[j] == 0
    decreases n
  {
    hide Roll, Fingerprint, Entry, TimesTo;
    if n == NWINDOW {
      FirstWindow(tab, wintab, p);
    } else {
      WindowLengthZero(tab, wintab, p, n - 1);
      if WindowUpTo(tab, wintab, p, n - 1) {
        WindowMove(tab, wintab, p, n - 1);
        FixedByte(p[n - 1 - NWINDOW]);
      }
    }
  }

  lemma FirstWindow(tab: Table, wintab: Table, p: seq<bv8>)
    requires IsReductionTable(tab) && |wintab| == 256 && NWINDOW <= |p|
    ensures WindowUpTo(tab, wintab, p, NWINDOW)
  {
    FillIsFingerprint(tab, p[..NWINDOW]);
  }

  /** A buffer on which the hash is wrong: the byte 1, followed by a window. */
  lemma NotTheWindow(tab: Table, wintab: Table, rest: seq<bv8>)
    requires IsReductionTable(tab) && IsWindowTable(wintab, 0) && |rest| == NWINDOW
    ensures Roll(tab, wintab, [1] + rest, NWINDOW + 1) != Fingerprint(rest)
  {
    hide Roll, Fingerprint, Entry, TimesTo;
    var p := [1] + rest;
    FirstWindow(tab, wintab, p);
    WindowMove(tab, wintab, p, NWINDOW);
    FixedByte(p[0]);
    assert p[1..NWINDOW + 1] == rest;
  }

  // ---------------------------------------------------------------- multiplication by t^248

  /** t^248 modulo the polynomial. */
  const T248: Word := 0x538188b7

  function Eight(x: Word): Word {
    TimesT(TimesT(TimesT(TimesT(TimesT(TimesT(TimesT(TimesT(x))))))))
  }

  lemma NextPower(k: nat, x: Word, y: Word)
    requires TimesTo(1, k) == x && Eight(x) == y
    ensures TimesTo(1, k + 8) == y
  {
    Compose(1, k, 8);
    Times8(x);
    hide TimesTo, TimesT;
  }

  lemma NoPower()
    ensures TimesTo(1, 0) == 1
  {
  }

  lemma Power64()
    ensures TimesTo(1, 64) == 0xe050e5e1
  {
    hide TimesTo;
    NoPower();
    NextPower(0, 0x00000001, 0x00000100);
    NextPower(8, 0x00000100, 0x00010000);
    NextPower(16, 0x00010000, 0x01000000);
    NextPower(24, 0x01000000, 0x45c2b6a1);
    NextPower(32, 0x45c2b6a1, 0xee306350);
    NextPower(40, 0xee306350, 0x1decac3b);
    NextPower(48, 0x1decac3b, 0x50d53ffb);
    NextPower(56, 0x50d53ffb, 0xe050e5e1);
  }

  lemma Power128()
    ensures TimesTo(1, 128) == 0x505123d5
  {
    hide TimesTo;
    Power64();
    NextPower(64, 0xe050e5e1, 0x01b7c416);
    NextPower(72, 0x01b7c416, 0xf206a0a1);
    NextPower(80, 0xf206a0a1, 0xd294ef61);
    NextPower(88, 0xd294ef61, 0x5d1d230b);
    NextPower(96, 0x5d1d230b, 0x9ad6172f);
    NextPower(104, 0x9ad6172f, 0x81f9ad95);
    NextPower(112, 0x81f9ad95, 0xcb771209);
    NextPower(120, 0xcb771209, 0x505123d5);
  }

  lemma Power192()
    ensures TimesTo(1, 192) == 0xb154b1b6
  {
    hide TimesTo;
    Power128();
    NextPower(128, 0x505123d5, 0x644ccbe1);
    NextPower(136, 0x644ccbe1, 0x3849999b);
    NextPower(144, 0x3849999b, 0xff2c4915);
    NextPower(152, 0xff2c4915, 0x4ae759af);
    NextPower(160, 0x4ae759af, 0xf2c002dc);
    NextPower(168, 0xf2c002dc, 0x14369261);
    NextPower(176, 0x14369261, 0x6ab90b10);
    NextPower(184, 0x6ab90b10, 0xb154b1b6);
  }

  lemma Power248()
    ensures TimesTo(1, 248) == T248
  {
    hide TimesTo;
    Power192();
    NextPower(192, 0xb154b1b6, 0x754e3b56);
    NextPower(200, 0x754e3b56, 0x71989e0f);
    NextPower(208, 0x71989e0f, 0xf5f5ab2a);
    NextPower(216, 0xf5f5ab2a, 0xbd10d3a7);
    NextPower(224, 0xbd10d3a7, 0xc6749e39);
    NextPower(232, 0xc6749e39, 0xe147111b);
    NextPower(240, 0xe147111b, 0x538188b7);
  }

  /** One step of Horner's rule for the product of a byte with t^248: `high` is the product without the lowest bit. */
  function Digit(b: bv8, high: Word): Word {
    Plus(TimesT(high), if b & 1 == 1 then T248 else 0)
  }

  function ByteTimes248(b: bv8): Word {
    Digit(b, Digit(b >> 1, Digit(b >> 2, Digit(b >> 3, Digit(b >> 4, Digit(b >> 5, Digit(b >> 6, Digit(b >> 7, 0))))))))
  }

  lemma LastBit(b: bv8)
    ensures b as Word == Plus(TimesT((b >> 1) as Word), if b & 1 == 1 then 1 else 0)
  {
  }

  lemma DigitIsProduct(b: bv8, high: Word)
    requires high == TimesTo((b >> 1) as Word, 248)
    ensures Digit(b, high) == TimesTo(b as Word, 248)
  {
    hide TimesTo, TimesT, Plus;
    var c, bit: Word := (b >> 1) as Word, if b & 1 == 1 then 1 else 0;
    LastBit(b);
    Linear(TimesT(c), bit, 248);
    Commutes(c, 248);
    Power248();
    TimesZero(248);
  }

  lemma {:induction false} Commutes(x: Word, k: nat)
    ensures TimesTo(TimesT(x), k) == TimesT(TimesTo(x, k))
    decreases k
  {
    hide TimesT;
    if k > 0 {
      Commutes(TimesT(x), k - 1);
    }
  }

  lemma NextBit(b: bv8)
    ensures (b >> 1) >> 1 == b >> 2 && (b >> 2) >> 1 == b >> 3 && (b >> 3) >> 1 == b >> 4
    ensures (b >> 4) >> 1 == b >> 5 && (b >> 5) >> 1 == b >> 6 && (b >> 6) >> 1 == b >> 7 && (b >> 7) >> 1 == 0
  {
  }

  lemma ByteTimes248IsProduct(b: bv8)
    ensures ByteTimes248(b) == TimesTo(b as Word, 248)
  {
    hide TimesTo, Digit;
    NextBit(b);
    TimesZero(248);
    DigitIsProduct(b >> 7, 0);
    var d7 := Digit(b >> 7, 0);
    DigitIsProduct(b >> 6, d7);
    var d6 := Digit(b >> 6, d7);
    DigitIsProduct(b >> 5, d6);
    var d5 := Digit(b >> 5, d6);
    DigitIsProduct(b >> 4, d5);
    var d4 := Digit(b >> 4, d5);
    DigitIsProduct(b >> 3, d4);
    var d3 := Digit(b >> 3, d4);
    DigitIsProduct(b >> 2, d3);
    var d2 := Digit(b >> 2, d3);
    DigitIsProduct(b >> 1, d2);
    DigitIsProduct(b, Digit(b >> 1, d2));
  }

  lemma OnlyZeroFixed(b: bv8)
    ensures ByteTimes248(b) == b as Word <==> b == 0
  {
  }

  /** The only byte that multiplication by t^248 does not change is 0. */
  lemma FixedByte(b: bv8)
    ensures TimesTo(b as Word, 248) == b as Word <==> b == 0
  {
    hide TimesTo, ByteTimes248;
    ByteTimes248IsProduct(b);
    OnlyZeroFixed(b);
  }

  lemma PlainEntry(wintab: Table, x: bv8)
    requires IsWindowTable(wintab, 0)
    ensures Entry(wintab, x) == x as Word
  {
  }

  lemma Leftover(out: Word, m: Word, gone: Word)
    ensures Plus(Plus(out, m), gone) == m <==> out == gone
  {
    hide Plus;
    PlusLaws(out, m, gone);
    PlusLaws(m, gone, gone);
    PlusLaws(m, out, gone);
    PlusLaws(out, gone, gone);
    PlusLaws(m, m, Plus(out, gone));
    PlusLaws(Plus(out, gone), m, m);
    if Plus(Plus(out, m), gone) == m {
      PlusLaws(m, Plus(out, gone), m);
      SumZero(out, gone);
    }
  }

  lemma SumZero(x: Word, y: Word)
    ensures Plus(x, y) == 0 <==> x == y
  {
  }

  // ---------------------------------------------------------------- cutting

  predicate IsCut(tab: Table, wintab: Table, p: seq<bv8>, i: nat)
    requires |tab| == |wintab| == 256 && NWINDOW <= i <= |p|
  {
    Roll(tab, wintab, p, i) & RABIN_MASK == 0
  }

  /** The first position from i on where the hash has the mask bits clear, or the end. */
  function FirstCut(tab: Table, wintab: Table, p: seq<bv8>, i: nat): (r: nat)
    requires |tab| == |wintab| == 256 && NWINDOW <= i <= |p|
    ensures i <= r <= |p| && (r < |p| ==> IsCut(tab, wintab, p, r))
    ensures forall j :: i <= j < r ==> !IsCut(tab, wintab, p, j)
    decreases |p| - i
  {
    if i == |p| || IsCut(tab, wintab, p, i) then i else FirstCut(tab, wintab, p, i + 1)
  }

  function RabinCut(tab: Table, wintab: Table, p: seq<bv8>): (r: nat)
    requires |tab| == |wintab| == 256
    ensures r <= |p| && (p != [] ==> 0 < r)
  {
    if |p| < NWINDOW then |p| else FirstCut(tab, wintab, p, NWINDOW)
  }

  /** The low twelve bits of the hash are zero. */
  predicate LowBitsClear(tab: Table, wintab: Table, p: seq<bv8>, i: nat)
    requires |tab| == |wintab| == 256 && 32 <= i <= |p|
  {
    Roll(tab, wintab, p, i) & 0xfff == 0
  }

  /** In numbers: short buffers are not cut; longer ones at the first position from 32 on where the low twelve bits of the
      hash are zero, or at the end. */
  lemma CutExactly(tab: Table, wintab: Table, p: seq<bv8>, r: nat)
    requires |tab| == |wintab| == 256 && r <= |p|
    ensures r == RabinCut(tab, wintab, p) <==>
              if |p| < 32 then r == |p|
              else 32 <= r && (r < |p| ==> LowBitsClear(tab, wintab, p, r))
                   && forall j :: 32 <= j < r ==> !LowBitsClear(tab, wintab, p, j)
  {
    hide Roll, FirstCut;
    if |p| >= 32 {
      var cut := FirstCut(tab, wintab, p, NWINDOW);
      forall j | 32 <= j <= |p|
        ensures IsCut(tab, wintab, p, j) <==> LowBitsClear(tab, wintab, p, j)
      {
      }
      assert 32 <= r < cut ==> !IsCut(tab, wintab, p, r);
      assert cut < r ==> LowBitsClear(tab, wintab, p, cut);
    }
  }

  /** rabinseg; its parameter winlen is not used. */
  method Rabinseg(p: seq<bv8>, tab: Table, wintab: Table) returns (r: nat)
    requires |tab| == |wintab| == 256
    ensures r == RabinCut(tab, wintab, p)
  {
    hide TableAppend, Plus, Entry;
    if |p| < NWINDOW {
      return |p|;
    }
    var h: Word := 0;
    var i := 0;
    while i < NWINDOW
      invariant 0 <= i <= NWINDOW && h == Fill(tab, p[..i])
    {
      assert p[..i + 1][..i] == p[..i];
      h := TableAppend(tab, h, p[i]);
      i := i + 1;
    }
    if h & RABIN_MASK == 0 {
      assert IsCut(tab, wintab, p, NWINDOW);
      return i;
    }
    while i < |p|
      invariant NWINDOW <= i <= |p| && h == Roll(tab, wintab, p, i)
      invariant FirstCut(tab, wintab, p, i) == RabinCut(tab, wintab, p)
      invariant h & RABIN_MASK != 0
    {
      h := Plus(h, Entry(wintab, p[i - NWINDOW]));
      h := TableAppend(tab, h, p[i]);
      i := i + 1;
      if h & RABIN_MASK == 0 {
        assert IsCut(tab, wintab, p, i);
        return i;
      }
    }
    return |p|;
  }

  function Bits(b: Bytes): (r: seq<bv8>)
    ensures |r| == |b|
  {
    seq(|b|, i requires 0 <= i < |b| => (b[i] as int) as bv8)
  }

  /** Every string of words of eight bits is that of the bytes with the same values. */
  lemma BitsOf(p: seq<bv8>)
    ensures Bits(seq(|p|, i requires 0 <= i < |p| => (p[i] as int) as Byte)) == p
  {
    forall i | 0 <= i < |p|
      ensures (p[i] as int) as bv8 == p[i]
    {
      ByteIndex(p[i]);
    }
  }

  /** Whatever the tables are, rabinseg is a split function as Fragment needs it: it never returns an empty piece. */
  lemma IsSplitFunction(tab: Table, wintab: Table)
    requires |tab| == |wintab| == 256
    ensures SegOk((b: Bytes) => RabinCut(tab, wintab, Bits(b)))
  {
  }

  /** The hash at a position depends only on the bytes before it. */
  lemma {:induction false} RollOfPrefix(tab: Table, wintab: Table, p: seq<bv8>, q: seq<bv8>, i: nat)
    requires |tab| == |wintab| == 256 && NWINDOW <= i <= |p|
    ensures Roll(tab, wintab, p + q, i) == Roll(tab, wintab, p, i)
    decreases i
  {
    hide TableAppend, Plus, Entry, Fill;
    if i == NWINDOW {
      assert (p + q)[..NWINDOW] == p[..NWINDOW];
    } else {
      RollOfPrefix(tab, wintab, p, q, i - 1);
    }
  }

  lemma {:induction false} FirstCutOfPrefix(tab: Table, wintab: Table, p: seq<bv8>, q: seq<bv8>, i: nat)
    requires |tab| == |wintab| == 256 && NWINDOW <= i <= |p| && FirstCut(tab, wintab, p, i) < |p|
    ensures FirstCut(tab, wintab, p + q, i) == FirstCut(tab, wintab, p, i)
    decreases |p| - i
  {
    hide Roll;
    RollOfPrefix(tab, wintab, p, q, i);
    if !IsCut(tab, wintab, p, i) {
      FirstCutOfPrefix(tab, wintab, p, q, i + 1);
    }
  }

  /** A cut that rabinseg finds before the end of its buffer stays the same when more bytes follow. Fragment therefore
      cuts the same chunks for every buffer size. */
  lemma IsStable(tab: Table, wintab: Table)
    requires |tab| == |wintab| == 256
    ensures Stable((b: Bytes) => RabinCut(tab, wintab, Bits(b)))
  {
    hide FirstCut, Roll;
    var seg := (b: Bytes) => RabinCut(tab, wintab, Bits(b));
    forall b: Bytes, more: Bytes | b != [] && seg(b) < |b|
      ensures seg(b + more) == seg(b)
    {
      assert Bits(b + more) == Bits(b) + Bits(more);
      FirstCutOfPrefix(tab, wintab, Bits(b), Bits(more), NWINDOW);
    }
  }
}
