/**
 * What RFC 4493 asks of the MAC, in the standard's own terms: the bits of the subkeys, the
 * example of its section 4, and the whole computation read from the front of the message.
 */
module CmacStandard {
  import opened Bits
  import opened Bytes
  import opened Cmac

  // ---- section 2.3: the subkeys ----

  /** The constant 0x87 in the last byte, bit by bit. */
  lemma RbBits(n: nat)
    requires n < 128
    ensures BitOf(RB, n) == (n in {120, 125, 126, 127})
  {
    if n < 120 {
      hide BitAt;
      assert RB[n / 8] == 0;
      NoBits(n % 8);
    } else {
      assert n / 8 == 15 && RB[15] == 0x87;
      LastByteBits(n % 8);
    }
  }

  lemma LastByteBits(j: nat)
    requires j < 8
    ensures BitAt(0x87, j) == (j in {0, 5, 6, 7})
  {
    assert j == 0 || j == 1 || j == 2 || j == 3 || j == 4 || j == 5 || j == 6 || j == 7;
  }

  lemma XorBit(a: byte, b: byte, j: nat)
    requires j < 8
    ensures BitAt(a ^ b, j) == (BitAt(a, j) != BitAt(b, j))
  {
    assert j == 0 || j == 1 || j == 2 || j == 3 || j == 4 || j == 5 || j == 6 || j == 7;
  }

  lemma TopBit(b: byte)
    ensures BitAt(b, 0) == (b & 0x80 != 0)
  {
  }

  /** A subkey is its parent shifted left by one bit; when a one falls out at the left, the last
      eight bits are flipped where 0x87 has a one. */
  lemma SubkeyBits(l: bytes, n: nat)
    requires |l| == 16 && n < 128
    ensures BitOf(Subkey(l), n) == ((n < 127 && BitOf(l, n + 1)) != (BitOf(l, 0) && n in {120, 125, 126, 127}))
  {
    hide BitAt;
    TopBit(l[0]);
    ShlMovesBits(l, n);
    XorBit(Shl(l)[n / 8], RB[n / 8], n % 8);
    RbBits(n);
  }

  // ---- section 4: the example the standard gives ----

  const EXAMPLE_L: bytes :=
    [0x7d, 0xf7, 0x6b, 0x0c, 0x1a, 0xb8, 0x99, 0xb3, 0x3e, 0x42, 0xf0, 0x47, 0xb9, 0x1b, 0x54, 0x6f]
  const EXAMPLE_K1: bytes :=
    [0xfb, 0xee, 0xd6, 0x18, 0x35, 0x71, 0x33, 0x66, 0x7c, 0x85, 0xe0, 0x8f, 0x72, 0x36, 0xa8, 0xde]
  const EXAMPLE_K2: bytes :=
    [0xf7, 0xdd, 0xac, 0x30, 0x6a, 0xe2, 0x66, 0xcc, 0xf9, 0x0b, 0xc1, 0x1e, 0xe4, 0x6d, 0x51, 0x3b]

  /** The subkeys of the standard's example, whatever cipher gives its L. */
  lemma ExampleSubkeys(e: Cipher, key: bytes)
    requires IsCipher(e) && e(key, Repeat(0, 16)) == EXAMPLE_L
    ensures K1(e, key) == EXAMPLE_K1 && K2(e, key) == EXAMPLE_K2
  {
    hide Subkey, IsCipher;
    assert ZERO == Repeat(0, 16);
    ExampleK1();
    ExampleK2();
  }

  lemma ExampleK1()
    ensures Subkey(EXAMPLE_L) == EXAMPLE_K1
  {
    hide Joined, Shl;
    ShlBytes(EXAMPLE_L);
    ExampleBytesOfL();
    assert Shl(EXAMPLE_L) == EXAMPLE_K1;
    assert EXAMPLE_L[0] & 0x80 == 0;
  }

  lemma ShlBytes(l: bytes)
    requires |l| == 16
    ensures Shl(l)[0] == Joined(l[0], l[1]) && Shl(l)[1] == Joined(l[1], l[2]) && Shl(l)[2] == Joined(l[2], l[3])
    ensures Shl(l)[3] == Joined(l[3], l[4]) && Shl(l)[4] == Joined(l[4], l[5]) && Shl(l)[5] == Joined(l[5], l[6])
    ensures Shl(l)[6] == Joined(l[6], l[7]) && Shl(l)[7] == Joined(l[7], l[8]) && Shl(l)[8] == Joined(l[8], l[9])
    ensures Shl(l)[9] == Joined(l[9], l[10]) && Shl(l)[10] == Joined(l[10], l[11]) && Shl(l)[11] == Joined(l[11], l[12])
    ensures Shl(l)[12] == Joined(l[12], l[13]) && Shl(l)[13] == Joined(l[13], l[14])
    ensures Shl(l)[14] == Joined(l[14], l[15]) && Shl(l)[15] == Joined(l[15], 0)
  {
    hide Joined;
  }

  lemma ExampleK2()
    ensures Subkey(EXAMPLE_K1) == EXAMPLE_K2
  {
    hide Joined, Shl;
    ShlBytes(EXAMPLE_K1);
    ExampleBytesOfK1();
    assert EXAMPLE_K1[0] & 0x80 == 0x80;
    XorRb(Shl(EXAMPLE_K1));
    assert 0xbc as byte ^ 0x87 == 0x3b;
  }

  lemma ExampleBytesOfL()
    ensures Joined(0x7d, 0xf7) == 0xfb && Joined(0xf7, 0x6b) == 0xee && Joined(0x6b, 0x0c) == 0xd6
    ensures Joined(0x0c, 0x1a) == 0x18 && Joined(0x1a, 0xb8) == 0x35 && Joined(0xb8, 0x99) == 0x71
    ensures Joined(0x99, 0xb3) == 0x33 && Joined(0xb3, 0x3e) == 0x66 && Joined(0x3e, 0x42) == 0x7c
    ensures Joined(0x42, 0xf0) == 0x85 && Joined(0xf0, 0x47) == 0xe0 && Joined(0x47, 0xb9) == 0x8f
    ensures Joined(0xb9, 0x1b) == 0x72 && Joined(0x1b, 0x54) == 0x36 && Joined(0x54, 0x6f) == 0xa8
    ensures Joined(0x6f, 0x00) == 0xde
  {
  }

  lemma ExampleBytesOfK1()
    ensures Joined(0xfb, 0xee) == 0xf7 && Joined(0xee, 0xd6) == 0xdd && Joined(0xd6, 0x18) == 0xac
    ensures Joined(0x18, 0x35) == 0x30 && Joined(0x35, 0x71) == 0x6a && Joined(0x71, 0x33) == 0xe2
    ensures Joined(0x33, 0x66) == 0x66 && Joined(0x66, 0x7c) == 0xcc && Joined(0x7c, 0x85) == 0xf9
    ensures Joined(0x85, 0xe0) == 0x0b && Joined(0xe0, 0x8f) == 0xc1 && Joined(0x8f, 0x72) == 0x1e
    ensures Joined(0x72, 0x36) == 0xe4 && Joined(0x36, 0xa8) == 0x6d && Joined(0xa8, 0xde) == 0x51
    ensures Joined(0xde, 0x00) == 0xbc
  {
  }

  // ---- section 2.4: the MAC, read from the front ----

  /** The MAC of what is left of a message when x is the chaining value so far: a block at a time
      while more than one is left, then the last one with its mask. */
  ghost function MacFrom(e: Cipher, key: bytes, x: bytes, rest: bytes): (r: bytes)
    requires IsCipher(e) && |x| == 16
    ensures |r| == 16
    decreases |rest|
  {
    if |rest| > 16 then MacFrom(e, key, e(key, Xor(x, rest[..16])), rest[16..])
    else if |rest| == 16 then e(key, Xor(x, Xor(rest, K1(e, key))))
    else e(key, Xor(x, Xor(rest + [0x80] + Repeat(0, 15 - |rest|), K2(e, key))))
  }

  /** A message of any length, the empty one included. */
  lemma MacReadsForward(e: Cipher, key: bytes, msg: bytes)
    requires IsCipher(e)
    ensures Mac(e, key, msg) == MacFrom(e, key, Repeat(0, 16), msg)
  {
    hide K1, K2, IsCipher;
    assert ZERO == Repeat(0, 16);
    assert msg[0..] == msg;
    FromBlock(e, key, msg, 0);
  }

  lemma {:induction false} FromBlock(e: Cipher, key: bytes, msg: bytes, n: nat)
    requires IsCipher(e) && n < Blocks(|msg|)
    ensures 16 * n <= |msg|
    ensures Mac(e, key, msg) == MacFrom(e, key, Chain(e, key, msg, n), msg[16 * n..])
    decreases Blocks(|msg|) - n
  {
    hide K1, K2, IsCipher, Mac, Chain;
    BlocksLeft(|msg|, n);
    if n + 1 < Blocks(|msg|) {
      assert msg[16 * n..][..16] == msg[16 * n..16 * (n + 1)];
      assert msg[16 * n..][16..] == msg[16 * (n + 1)..];
      ChainNext(e, key, msg, n);
      FromBlock(e, key, msg, n + 1);
    } else {
      LastOne(e, key, msg, n);
    }
  }

  lemma BlocksLeft(len: nat, n: nat)
    requires n < Blocks(len)
    ensures 16 * n <= len
    ensures len - 16 * n > 16 <==> n + 1 < Blocks(len)
  {
  }

  lemma ChainNext(e: Cipher, key: bytes, msg: bytes, n: nat)
    requires IsCipher(e) && 16 * (n + 1) <= |msg|
    ensures Chain(e, key, msg, n + 1) == e(key, Xor(Chain(e, key, msg, n), msg[16 * n..16 * (n + 1)]))
  {
    hide IsCipher;
  }

  lemma LastOne(e: Cipher, key: bytes, msg: bytes, n: nat)
    requires IsCipher(e) && n + 1 == Blocks(|msg|) && 16 * n <= |msg| <= 16 * n + 16
    ensures Mac(e, key, msg) == MacFrom(e, key, Chain(e, key, msg, n), msg[16 * n..])
  {
    hide K1, K2, IsCipher, Chain, Blocks;
  }

  /** Messages padded to the same block were the same: 0x80 marks the end. */
  lemma PadIsReversible(a: bytes, b: bytes)
    requires |a| < 16 && |b| < 16 && Pad(a) == Pad(b)
    ensures a == b
  {
    PadEnds(a, b);
    PadEnds(b, a);
    assert Pad(a)[..|a|] == a && Pad(b)[..|b|] == b;
  }

  lemma PadEnds(a: bytes, b: bytes)
    requires |a| < 16 && |b| < 16
    ensures |a| < |b| ==> Pad(a) != Pad(b)
  {
    if |a| < |b| {
      assert Pad(b)[|b|] == 0x80;
      assert Pad(a)[|b|] == 0;
    }
  }
}
