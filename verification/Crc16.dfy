/**
 * The CRC-16 that guards a video frame: the device's nibble table, the Python
 * host's byte table and the web host's bit loop, all proved against one
 * bit-serial shift register, and the burst of errors it can never miss.
 */
module Crc16 {
  import opened Bytes

  type word = bv16

  const INIT: word := 0xFFFF

  // ---- the reference: a 16-bit shift register fed one message bit at a time ----

  /** One clock of the register: shift left, and subtract the generator x^16+x^12+x^5+1
      when a one falls out of the top. */
  function Clock(c: word): word { (c << 1) ^ ((c >> 15) * 0x1021) }

  /** Feed one message bit (0 or 1) into the top of the register and clock it. */
  function FeedBit(c: word, bit: word): word { Clock(c ^ (bit << 15)) }

  /** Feed the eight bits of a byte, most significant first. */
  function FeedByte(c: word, b: byte): word {
    var m := b as word;
    var c := FeedBit(c, (m >> 7) & 1);
    var c := FeedBit(c, (m >> 6) & 1);
    var c := FeedBit(c, (m >> 5) & 1);
    var c := FeedBit(c, (m >> 4) & 1);
    var c := FeedBit(c, (m >> 3) & 1);
    var c := FeedBit(c, (m >> 2) & 1);
    var c := FeedBit(c, (m >> 1) & 1);
    FeedBit(c, m & 1)
  }

  function Run(c: word, data: bytes): word
    decreases |data|
  {
    if data == [] then c else FeedByte(Run(c, data[..|data| - 1]), data[|data| - 1])
  }

  /** The CRC of a message. */
  function Crc(data: bytes): word { Run(INIT, data) }

  /** The check value of CRC-16/CCITT-FALSE: the CRC of the nine digits "123456789". */
  lemma CheckValue()
    ensures Crc([0x31, 0x32, 0x33, 0x34, 0x35, 0x36, 0x37, 0x38, 0x39]) == 0x29B1
  {
    hide FeedByte;
    CheckSteps();
    var d: bytes := [0x31, 0x32, 0x33, 0x34, 0x35, 0x36, 0x37, 0x38, 0x39];
    RunOne(INIT, d, 0);
    RunOne(INIT, d, 1);
    RunOne(INIT, d, 2);
    RunOne(INIT, d, 3);
    RunOne(INIT, d, 4);
    RunOne(INIT, d, 5);
    RunOne(INIT, d, 6);
    RunOne(INIT, d, 7);
    RunOne(INIT, d, 8);
    assert d[..9] == d;
  }

  lemma RunOne(c: word, d: bytes, n: nat)
    requires n < |d|
    ensures Run(c, d[..n + 1]) == FeedByte(Run(c, d[..n]), d[n])
    ensures Run(c, d[..0]) == c
  {
    hide FeedByte;
    assert d[..n + 1][..n] == d[..n];
  }

  lemma CheckSteps()
    ensures FeedByte(0xFFFF, 0x31) == 0xC782 && FeedByte(0xC782, 0x32) == 0x3DBA && FeedByte(0x3DBA, 0x33) == 0x5BCE
    ensures FeedByte(0x5BCE, 0x34) == 0x5349 && FeedByte(0x5349, 0x35) == 0x4560 && FeedByte(0x4560, 0x36) == 0x2EF4
    ensures FeedByte(0x2EF4, 0x37) == 0x7718 && FeedByte(0x7718, 0x38) == 0xA12B && FeedByte(0xA12B, 0x39) == 0x29B1
  {
  }

  // ---- algebra of the register ----

  function Sum(a: word, b: word): word { a ^ b }

  function Clock4(c: word): word { Clock(Clock(Clock(Clock(c)))) }

  function Clock8(c: word): word { Clock4(Clock4(c)) }

  /** The register run backwards. */
  function Unclock(c: word): word { ((c ^ ((c & 1) * 0x1021)) >> 1) ^ ((c & 1) << 15) }

  lemma ClockXor(a: word, b: word)
    ensures Clock(a ^ b) == Clock(a) ^ Clock(b)
  {
  }

  lemma ClockLinear(a: word, b: word)
    ensures Clock(Sum(a, b)) == Sum(Clock(a), Clock(b))
  {
    hide Clock;
    ClockXor(a, b);
  }

  lemma UnclockClock(a: word)
    ensures Unclock(Clock(a)) == a
  {
  }

  lemma Clock4Linear(a: word, b: word)
    ensures Clock4(Sum(a, b)) == Sum(Clock4(a), Clock4(b))
  {
    hide Clock, Sum;
    ClockLinear(a, b);
    ClockLinear(Clock(a), Clock(b));
    ClockLinear(Clock(Clock(a)), Clock(Clock(b)));
    ClockLinear(Clock(Clock(Clock(a))), Clock(Clock(Clock(b))));
  }

  lemma Clock8Linear(a: word, b: word)
    ensures Clock8(Sum(a, b)) == Sum(Clock8(a), Clock8(b))
  {
    hide Clock4, Sum;
    Clock4Linear(a, b);
    Clock4Linear(Clock4(a), Clock4(b));
  }

  lemma Clock4Injective(a: word, b: word)
    requires Clock4(a) == Clock4(b)
    ensures a == b
  {
    hide Clock, Unclock;
    UnclockClock(a); UnclockClock(b);
    UnclockClock(Clock(a)); UnclockClock(Clock(b));
    UnclockClock(Clock(Clock(a))); UnclockClock(Clock(Clock(b)));
    UnclockClock(Clock(Clock(Clock(a)))); UnclockClock(Clock(Clock(Clock(b))));
  }

  lemma Clock8Injective(a: word, b: word)
    requires Clock8(a) == Clock8(b)
    ensures a == b
  {
    hide Clock4;
    Clock4Injective(Clock4(a), Clock4(b));
    Clock4Injective(a, b);
  }

  /** Clocking a register that a message word sits xored on feeds that word's top bit and
      moves the rest of it one place up. */
  lemma Absorb(c: word, m: word, k: word)
    requires m < 256 && k < 8
    ensures Clock(Sum(c, m << (8 + k))) == Sum(FeedBit(c, (m >> (7 - k)) & 1), m << (9 + k))
  {
    hide Clock, FeedBit;
    var w := m << (8 + k);
    AbsorbWord(c, w);
    assert w >> 15 == (m >> (7 - k)) & 1;
    assert w << 1 == m << (9 + k);
  }

  lemma AbsorbWord(c: word, w: word)
    ensures Clock(c ^ w) == FeedBit(c, w >> 15) ^ (w << 1)
  {
  }

  lemma FeedByteIsClock8(c: word, b: byte)
    ensures FeedByte(c, b) == Clock8(Sum(c, (b as word) << 8))
  {
    hide Clock, Sum, FeedBit;
    var m := b as word;
    var c1 := FeedBit(c, (m >> 7) & 1);
    var c2 := FeedBit(c1, (m >> 6) & 1);
    var c3 := FeedBit(c2, (m >> 5) & 1);
    var c4 := FeedBit(c3, (m >> 4) & 1);
    var c5 := FeedBit(c4, (m >> 3) & 1);
    var c6 := FeedBit(c5, (m >> 2) & 1);
    var c7 := FeedBit(c6, (m >> 1) & 1);
    var c8 := FeedBit(c7, m & 1);
    Absorb(c, m, 0);
    Absorb(c1, m, 1);
    Absorb(c2, m, 2);
    Absorb(c3, m, 3);
    Absorb(c4, m, 4);
    Absorb(c5, m, 5);
    Absorb(c6, m, 6);
    Absorb(c7, m, 7);
    SumZero(c8, m);
  }

  lemma SumZero(c: word, m: word)
    requires m < 256
    ensures Sum(c, m << 16) == c
  {
  }

  /** The low byte of the register does not reach the top in eight clocks. */
  lemma LowByteOnlyMoves(m: word)
    requires m < 256
    ensures Clock8(m) == m << 8
    ensures m < 16 ==> Clock4(m << 8) == m << 12
  {
  }

  // ---- the device: a sixteen-entry nibble table ----

  const NIBBLES: seq<word> := [
    0x0000, 0x1021, 0x2042, 0x3063, 0x4084, 0x50A5, 0x60C6, 0x70E7,
    0x8108, 0x9129, 0xA14A, 0xB16B, 0xC18C, 0xD1AD, 0xE1CE, 0xF1EF]

  function NibbleAt(x: word): word { NIBBLES[(x & 0x0F) as int] }

  function NibbleStep(crc: word, nibble: word): word { (crc << 4) ^ NibbleAt((crc >> 12) ^ nibble) }

  /** The running update of the device, one byte in two table look-ups. */
  function NibbleUpdate(crc: word, b: byte): word {
    NibbleStep(NibbleStep(crc, (b as word) >> 4), (b as word) & 0x0F)
  }

  lemma NibbleEntry(x: word)
    ensures NibbleAt(x) == Clock4((x & 0x0F) << 12)
  {
  }

  lemma TopNibble(crc: word, n: word)
    requires n < 16
    ensures Sum(crc, n << 12) == Sum(crc & 0x0FFF, (((crc >> 12) ^ n) & 0x0F) << 12)
    ensures Clock4(crc & 0x0FFF) == crc << 4
  {
  }

  lemma NibbleStepIsClock4(crc: word, n: word)
    requires n < 16
    ensures NibbleStep(crc, n) == Clock4(Sum(crc, n << 12))
  {
    NibbleStepAsSum(crc, n);
    hide Clock4, Sum, NibbleAt, NibbleStep;
    TopNibble(crc, n);
    NibbleEntry((crc >> 12) ^ n);
    Clock4Linear(crc & 0x0FFF, (((crc >> 12) ^ n) & 0x0F) << 12);
  }

  lemma NibbleStepAsSum(crc: word, n: word)
    ensures NibbleStep(crc, n) == Sum(crc << 4, NibbleAt((crc >> 12) ^ n))
  {
    hide NibbleAt;
  }

  lemma NibblesOfByte(crc: word, m: word)
    requires m < 256
    ensures Sum(Sum(crc, (m >> 4) << 12), (m & 0x0F) << 8) == Sum(crc, m << 8)
    ensures m >> 4 < 16 && m & 0x0F < 16
  {
  }

  lemma NibbleUpdateIsFeedByte(crc: word, b: byte)
    ensures NibbleUpdate(crc, b) == FeedByte(crc, b)
  {
    hide Clock4, FeedByte, NibbleStep, Sum;
    var m := b as word;
    var hi, lo := m >> 4, m & 0x0F;
    NibblesOfByte(crc, m);
    NibbleStepIsClock4(crc, hi);
    NibbleStepIsClock4(NibbleStep(crc, hi), lo);
    Clock4Linear(Sum(crc, hi << 12), lo << 8);
    LowByteOnlyMoves(lo);
    FeedByteIsClock8(crc, b);
  }

  // ---- the Python host: a 256-entry table built once ----

  function Clocks(n: nat, c: word): word { if n == 0 then c else Clock(Clocks(n - 1, c)) }

  lemma EightClocks(c: word)
    ensures Clocks(8, c) == Clock8(c)
  {
    hide Clock;
    assert Clocks(1, c) == Clock(c);
    assert Clocks(3, c) == Clock(Clock(Clock(c)));
    assert Clocks(5, c) == Clock(Clock4(c));
    assert Clocks(7, c) == Clock(Clock(Clock(Clock4(c))));
  }

  /** The conditional shift both hosts write. */
  function ShiftStep(c: word): word { if c & 0x8000 != 0 then (c << 1) ^ 0x1021 else c << 1 }

  lemma ShiftStepIsClock(c: word)
    ensures ShiftStep(c) == Clock(c)
  {
    if c & 0x8000 != 0 {
      assert c >> 15 == 1;
    } else {
      assert c >> 15 == 0;
    }
  }

  predicate IsByteTable(tab: seq<word>) {
    |tab| == 256 && forall i :: 0 <= i < 256 ==> tab[i] == Clock8((i as word) << 8)
  }

  method Crc16Table() returns (tab: seq<word>)
    ensures IsByteTable(tab)
  {
    tab := [];
    for i := 0 to 256
      invariant |tab| == i
      invariant forall k :: 0 <= k < i ==> tab[k] == Clock8((k as word) << 8)
    {
      hide Clock, Clock8, ShiftStep;
      var c := (i as word) << 8;
      for n := 0 to 8
        invariant c == Clocks(n, (i as word) << 8)
      {
        ShiftStepIsClock(c);
        c := ShiftStep(c);
      }
      EightClocks((i as word) << 8);
      tab := tab + [c];
    }
  }

  function TableAt(tab: seq<word>, x: word): word
    requires |tab| == 256 && x < 256
  {
    tab[x as int]
  }

  lemma TableEntry(tab: seq<word>, x: word)
    requires IsByteTable(tab) && x < 256
    ensures TableAt(tab, x) == Clock8(x << 8)
  {
    hide Clock8;
    WordOf(x);
  }

  lemma WordOf(x: word)
    ensures (x as int) as word == x
  {
  }

  lemma TopByte(crc: word, m: word)
    requires m < 256
    ensures (crc >> 8) ^ m < 256
    ensures Sum(crc, m << 8) == Sum(crc & 0xFF, ((crc >> 8) ^ m) << 8)
    ensures crc << 8 == (crc & 0xFF) << 8
  {
  }

  function TableUpdate(tab: seq<word>, crc: word, m: word): word
    requires |tab| == 256 && m < 256
  {
    TopByte(crc, m);
    ((crc << 8) & 0xFFFF) ^ TableAt(tab, (crc >> 8) ^ m)
  }

  lemma TableUpdateIsFeedByte(tab: seq<word>, crc: word, b: byte)
    requires IsByteTable(tab)
    ensures TableUpdate(tab, crc, b as word) == FeedByte(crc, b)
  {
    var m := b as word;
    TopByte(crc, m);
    TableUpdateAsSum(tab, crc, m);
    hide Clock8, FeedByte, Sum, TableAt, TableUpdate;
    TableEntry(tab, (crc >> 8) ^ m);
    FeedByteIsClock8(crc, b);
    Clock8Linear(crc & 0xFF, ((crc >> 8) ^ m) << 8);
    LowByteOnlyMoves(crc & 0xFF);
  }

  lemma TableUpdateAsSum(tab: seq<word>, crc: word, m: word)
    requires |tab| == 256 && m < 256
    ensures (crc >> 8) ^ m < 256
    ensures TableUpdate(tab, crc, m) == Sum(crc << 8, TableAt(tab, (crc >> 8) ^ m))
  {
    hide TableAt;
    TopByte(crc, m);
  }

  /** The Python host's CRC over its prebuilt table. */
  method Crc16Ccitt(tab: seq<word>, data: bytes) returns (crc: word)
    requires IsByteTable(tab)
    ensures crc == Crc(data)
  {
    crc := INIT;
    for n := 0 to |data|
      invariant crc == Run(INIT, data[..n])
    {
      hide FeedByte, TableUpdate;
      assert data[..n + 1][..n] == data[..n];
      TableUpdateIsFeedByte(tab, crc, data[n]);
      crc := TableUpdate(tab, crc, data[n] as word);
    }
    assert data[..|data|] == data;
  }

  // ---- the web host: eight conditional shifts a byte ----

  method Crc16CcittWeb(data: bytes) returns (crc: word)
    ensures crc == Crc(data)
  {
    crc := INIT;
    for n := 0 to |data|
      invariant crc == Run(INIT, data[..n])
    {
      hide Clock, Clock8, ShiftStep, FeedByte;
      assert data[..n + 1][..n] == data[..n];
      FeedByteIsClock8(crc, data[n]);
      ghost var before := Sum(crc, (data[n] as word) << 8);
      crc := crc ^ ((data[n] as word) << 8);
      for i := 0 to 8
        invariant crc == Clocks(i, before)
      {
        ShiftStepIsClock(crc);
        crc := ShiftStep(crc);
      }
      EightClocks(before);
    }
    assert data[..|data|] == data;
  }

  // ---- what a wrong CRC can never miss ----

  lemma {:induction false} RunConcat(c: word, a: bytes, b: bytes)
    ensures Run(c, a + b) == Run(Run(c, a), b)
    decreases |b|
  {
    hide FeedByte;
    if b == [] {
      assert a + b == a;
    } else {
      var n := |b| - 1;
      assert (a + b)[..|a + b| - 1] == a + b[..n];
      RunConcat(c, a, b[..n]);
    }
  }

  /** The same byte fed to two different registers leaves them different. */
  lemma FeedByteInjective(c: word, d: word, b: byte)
    requires FeedByte(c, b) == FeedByte(d, b)
    ensures c == d
  {
    hide FeedByte, Clock8;
    FeedByteIsClock8(c, b);
    FeedByteIsClock8(d, b);
    Clock8Injective(Sum(c, (b as word) << 8), Sum(d, (b as word) << 8));
  }

  lemma {:induction false} RunInjective(c: word, d: word, data: bytes)
    requires Run(c, data) == Run(d, data)
    ensures c == d
    decreases |data|
  {
    hide FeedByte;
    if data != [] {
      var n := |data| - 1;
      FeedByteInjective(Run(c, data[..n]), Run(d, data[..n]), data[n]);
      RunInjective(c, d, data[..n]);
    }
  }

  /** Two bytes fed in a row act as one sixteen-bit word laid on the register. */
  lemma FeedPair(c: word, a1: byte, a2: byte)
    ensures FeedByte(FeedByte(c, a1), a2)
         == Clock8(Clock8(Sum(Sum(c, (a1 as word) << 8), a2 as word)))
  {
    hide FeedByte, Clock8, Sum;
    FeedByteIsClock8(c, a1);
    FeedByteIsClock8(FeedByte(c, a1), a2);
    Clock8Linear(Sum(c, (a1 as word) << 8), a2 as word);
    LowByteOnlyMoves(a2 as word);
  }

  lemma FeedPairInjective(c: word, a1: byte, a2: byte, b1: byte, b2: byte)
    requires FeedByte(FeedByte(c, a1), a2) == FeedByte(FeedByte(c, b1), b2)
    ensures a1 == b1 && a2 == b2
  {
    hide FeedByte, Clock8;
    FeedPair(c, a1, a2);
    FeedPair(c, b1, b2);
    var x := Sum(Sum(c, (a1 as word) << 8), a2 as word);
    var y := Sum(Sum(c, (b1 as word) << 8), b2 as word);
    Clock8Injective(Clock8(x), Clock8(y));
    Clock8Injective(x, y);
  }

  /** Damage confined to two adjacent bytes (or to the one byte there is) of a payload of
      any length always shows: the CRC agrees exactly when nothing was damaged. */
  lemma BurstAlwaysCaught(sent: bytes, got: bytes, k: nat)
    requires |sent| == |got|
    requires forall i :: 0 <= i < |sent| && i != k && i != k + 1 ==> sent[i] == got[i]
    ensures Crc(sent) == Crc(got) <==> sent == got
  {
    hide FeedByte;
    if |sent| >= 2 {
      PairAlwaysCaught(sent, got, if k + 2 <= |sent| then k else |sent| - 2);
    } else if |sent| == 1 {
      assert Run(INIT, sent) == FeedByte(Run(INIT, sent[..0]), sent[0]);
      assert Run(INIT, got) == FeedByte(Run(INIT, got[..0]), got[0]);
      if Crc(sent) == Crc(got) {
        FeedPairInjective(INIT, sent[0], 0, got[0], 0);
      }
    }
  }

  lemma PairAlwaysCaught(sent: bytes, got: bytes, k: nat)
    requires |sent| == |got| && k + 2 <= |sent|
    requires forall i :: 0 <= i < |sent| && i != k && i != k + 1 ==> sent[i] == got[i]
    ensures Crc(sent) == Crc(got) <==> sent == got
  {
    hide FeedByte;
    var pre, post := sent[..k], sent[k + 2..];
    var x, y := sent[k..k + 2], got[k..k + 2];
    assert sent == pre + x + post;
    assert got == pre + y + post;
    if Crc(sent) == Crc(got) {
      var c := Run(INIT, pre);
      RunConcat(INIT, pre + x, post); RunConcat(INIT, pre, x);
      RunConcat(INIT, pre + y, post); RunConcat(INIT, pre, y);
      RunInjective(Run(c, x), Run(c, y), post);
      RunPair(c, x);
      RunPair(c, y);
      FeedPairInjective(c, x[0], x[1], y[0], y[1]);
    }
  }

  lemma RunPair(c: word, x: bytes)
    requires |x| == 2
    ensures Run(c, x) == FeedByte(FeedByte(c, x[0]), x[1])
  {
    hide FeedByte;
    assert Run(c, x[..1]) == FeedByte(Run(c, x[..1][..0]), x[0]);
  }
}
