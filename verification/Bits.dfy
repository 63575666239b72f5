/** Single bits of a byte. */
module Bits {
  import opened Bytes

  /** Bit j of a byte, counted from the left. */
  predicate BitAt(b: byte, j: nat)
    requires j < 8
  {
    (b >> (7 - j)) & 1 == 1
  }

  lemma SameBits(a: byte, b: byte)
    requires forall j :: 0 <= j < 8 ==> BitAt(a, j) == BitAt(b, j)
    ensures a == b
  {
    assert BitAt(a, 0) == BitAt(b, 0) && BitAt(a, 1) == BitAt(b, 1);
    assert BitAt(a, 2) == BitAt(b, 2) && BitAt(a, 3) == BitAt(b, 3);
    assert BitAt(a, 4) == BitAt(b, 4) && BitAt(a, 5) == BitAt(b, 5);
    assert BitAt(a, 6) == BitAt(b, 6) && BitAt(a, 7) == BitAt(b, 7);
  }

  function SetBit(b: byte, j: nat, on: bool): byte
    requires j < 8
  {
    if on then b | (1 << (7 - j)) else b & !(1 << (7 - j))
  }

  lemma OrBit(a: byte, m: byte, i: nat)
    requires i < 8
    ensures BitAt(a | m, i) == (BitAt(a, i) || BitAt(m, i))
  {
  }

  lemma AndNotBit(a: byte, m: byte, i: nat)
    requires i < 8
    ensures BitAt(a & !m, i) == (BitAt(a, i) && !BitAt(m, i))
  {
  }

  lemma OneBit(j: nat, i: nat)
    requires i < 8 && j < 8
    ensures BitAt(1 << (7 - j), i) == (i == j)
  {
  }

  lemma AndBit(a: byte, m: byte, i: nat)
    requires i < 8
    ensures BitAt(a & m, i) == (BitAt(a, i) && BitAt(m, i))
  {
  }

  lemma AllBits(i: nat)
    requires i < 8
    ensures BitAt(0xFF, i)
  {
  }

  lemma NoBits(j: nat)
    requires j < 8
    ensures !BitAt(0, j)
  {
  }

  /** Writing one bit leaves the other seven. */
  lemma SetBitAt(b: byte, j: nat, on: bool, i: nat)
    requires i < 8 && j < 8
    ensures BitAt(SetBit(b, j, on), i) == if i == j then on else BitAt(b, i)
  {
    hide BitAt;
    OrBit(b, 1 << (7 - j), i);
    AndNotBit(b, 1 << (7 - j), i);
    OneBit(j, i);
  }
}
