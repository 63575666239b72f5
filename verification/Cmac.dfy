/**
 * AES-CMAC (RFC 4493) over a block cipher that is a black box: a fixed function of key and
 * block, reached through a call that may fail at any time. The unit under proof caches the
 * two subkeys of the last key it derived them for.
 */
module Cmac {
  import opened Bits
  import opened Bytes

  /** E(key, block); both are sixteen bytes. */
  type Cipher = (bytes, bytes) -> bytes

  ghost predicate IsCipher(e: Cipher) { forall k, b :: |b| == 16 ==> |e(k, b)| == 16 }

  // ---- section 2.3: subkeys ----

  const ZERO: bytes := [0, 0, 0, 0, 0, 0, 0, 0, 0, 0, 0, 0, 0, 0, 0, 0]

  /** The constant Rb for a 128-bit block. */
  const RB: bytes := [0, 0, 0, 0, 0, 0, 0, 0, 0, 0, 0, 0, 0, 0, 0, 0x87]

  /** A bit string shifted left by one. */
  function Shl(b: bytes): (r: bytes)
    ensures |r| == |b|
  {
    seq(|b|, i requires 0 <= i < |b| => Joined(b[i], if i + 1 < |b| then b[i + 1] else 0))
  }

  /** The low seven bits of one byte and the top bit of the next. */
  function Joined(b: byte, next: byte): byte { (b << 1) | (next >> 7) }

  function Subkey(l: bytes): (r: bytes)
    requires |l| == 16
    ensures |r| == 16
  {
    if l[0] & 0x80 == 0 then Shl(l) else Xor(Shl(l), RB)
  }

  ghost function K1(e: Cipher, key: bytes): (r: bytes)
    requires IsCipher(e)
    ensures |r| == 16
  {
    Subkey(e(key, ZERO))
  }

  ghost function K2(e: Cipher, key: bytes): (r: bytes)
    requires IsCipher(e)
    ensures |r| == 16
  {
    Subkey(K1(e, key))
  }

  // ---- section 2.4: the MAC ----

  /** The chaining value after n whole blocks. */
  ghost function Chain(e: Cipher, key: bytes, msg: bytes, n: nat): (x: bytes)
    requires IsCipher(e) && 16 * n <= |msg|
    ensures |x| == 16
  {
    if n == 0 then ZERO
    else e(key, Xor(Chain(e, key, msg, n - 1), msg[16 * (n - 1)..16 * n]))
  }

  /** 1 followed by zeros, up to a whole block. */
  function Pad(m: bytes): (r: bytes)
    requires |m| < 16
    ensures |r| == 16
  {
    m + [0x80] + Repeat(0 as byte, 15 - |m|)
  }

  /** Number of blocks, at least one. */
  function Blocks(len: nat): nat { if len == 0 then 1 else (len + 15) / 16 }

  /** The last block, masked with K1 when it is complete and padded and masked with K2 when not. */
  ghost function LastBlock(e: Cipher, key: bytes, msg: bytes): (r: bytes)
    requires IsCipher(e)
    ensures |r| == 16
  {
    var m := msg[16 * (Blocks(|msg|) - 1)..];
    if |m| == 16 then Xor(m, K1(e, key)) else Xor(Pad(m), K2(e, key))
  }

  ghost function Mac(e: Cipher, key: bytes, msg: bytes): (r: bytes)
    requires IsCipher(e)
    ensures |r| == 16
  {
    e(key, Xor(Chain(e, key, msg, Blocks(|msg|) - 1), LastBlock(e, key, msg)))
  }

  /** Bit n of a bit string, the leftmost first. */
  predicate BitOf(b: bytes, n: nat)
    requires n < 8 * |b|
  {
    BitAt(b[n / 8], n % 8)
  }

  /** Shl moves every bit one place to the left and brings in a zero. */
  lemma ShlMovesBits(b: bytes, n: nat)
    requires n < 8 * |b|
    ensures BitOf(Shl(b), n) == (n + 1 < 8 * |b| && BitOf(b, n + 1))
  {
    var i, j := n / 8, n % 8;
    if j < 7 {
      assert (n + 1) / 8 == i && (n + 1) % 8 == j + 1;
    } else {
      assert (n + 1) / 8 == i + 1 && (n + 1) % 8 == 0;
    }
    ShiftedByte(b[i], if i + 1 < |b| then b[i + 1] else 0, j);
    hide BitAt;
  }

  lemma ShiftedByte(b: byte, c: byte, j: nat)
    requires j < 8
    ensures BitAt(Joined(b, c), j) == if j < 7 then BitAt(b, j + 1) else BitAt(c, 0)
    ensures !BitAt(0, 0)
  {
  }

  // ---- the cipher as the tag reaches it ----

  /** The controller's block encryption. `fault` decides which calls fail, `junk` what a failed
      call leaves behind; nothing is assumed about either. */
  class AesEngine {
    const cipher: Cipher
    const fault: nat -> bool
    const junk: nat -> bytes
    var calls: nat

    ghost predicate Valid() { IsCipher(cipher) && forall n :: |junk(n)| == 16 }

    constructor (cipher: Cipher, fault: nat -> bool, junk: nat -> bytes)
      requires IsCipher(cipher) && forall n :: |junk(n)| == 16
      ensures Valid() && this.cipher == cipher && this.fault == fault && calls == 0
    {
      this.cipher, this.fault, this.junk := cipher, fault, junk;
      calls := 0;
    }

    method Encrypt(key: bytes, block: bytes) returns (ok: bool, out: bytes)
      requires Valid() && |block| == 16
      modifies this
      ensures calls == old(calls) + 1 && ok == !fault(old(calls))
      ensures |out| == 16 && (ok ==> out == cipher(key, block))
    {
      ok := !fault(calls);
      out := if ok then cipher(key, block) else junk(calls);
      calls := calls + 1;
    }
  }

  /** shift_left: the carry runs from the last byte to the first. */
  method ShiftLeft(b: bytes) returns (out: array<byte>)
    ensures fresh(out) && out[..] == Shl(b)
  {
    out := new byte[|b|];
    var carry: byte := 0;
    var i := |b|;
    while i > 0
      invariant 0 <= i <= |b|
      invariant carry == if i < |b| then b[i] >> 7 else 0
      invariant forall k :: i <= k < |b| ==> out[k] == Shl(b)[k]
    {
      i := i - 1;
      out[i] := (b[i] << 1) | carry;
      CarryOut(b[i]);
      carry := if b[i] & 0x80 != 0 then 1 else 0;
    }
  }

  lemma CarryOut(b: byte)
    ensures b >> 7 == if b & 0x80 != 0 then 1 else 0
  {
    if b & 0x80 != 0 { assert b >> 7 == 1; } else { assert b >> 7 == 0; }
  }

  /** A shift and the conditional Rb of section 2.3. */
  method DeriveSubkey(l: bytes) returns (k: bytes)
    requires |l| == 16
    ensures k == Subkey(l)
  {
    var a := ShiftLeft(l);
    if l[0] & 0x80 != 0 {
      a[15] := a[15] ^ 0x87;
      XorRb(Shl(l));
    }
    k := a[..];
  }

  lemma XorRb(b: bytes)
    requires |b| == 16
    ensures Xor(b, RB) == b[15 := b[15] ^ 0x87]
  {
    forall i | 0 <= i < 15 ensures b[i] ^ RB[i] == b[i] { XorRestores(b[i], 0); }
  }

  /** No block encryption numbered from a up to b failed. */
  ghost predicate NoFault(fault: nat -> bool, a: nat, b: nat) {
    forall n :: a <= n < b ==> !fault(n)
  }

  /** mesh_cmac with its subkey cache. */
  class CmacUnit {
    const aes: AesEngine
    var cachedKey: bytes
    var cachedK1: bytes
    var cachedK2: bytes
    var cacheValid: bool

    /** Whatever is cached is right: no sequence of failures can put anything else there. */
    ghost predicate Valid()
      reads this
    {
      && aes.Valid()
      && (cacheValid ==>
            cachedK1 == K1(aes.cipher, cachedKey) && cachedK2 == K2(aes.cipher, cachedKey))
    }

    constructor (aes: AesEngine)
      requires aes.Valid()
      ensures Valid() && this.aes == aes && !cacheValid
    {
      this.aes := aes;
      cachedKey, cachedK1, cachedK2, cacheValid := [], [], [], false;
    }

    /** Derive both subkeys, or take them from the cache. A failed derivation is reported and
        leaves the cache as it was. */
    method Subkeys(key: bytes) returns (ok: bool, k1: bytes, k2: bytes)
      requires Valid()
      modifies this, aes
      ensures Valid()
      ensures ok == NoFault(aes.fault, old(aes.calls), aes.calls)
      ensures ok ==> k1 == K1(aes.cipher, key) && k2 == K2(aes.cipher, key) && cacheValid && cachedKey == key
      ensures !ok ==> cachedKey == old(cachedKey) && cacheValid == old(cacheValid)
      ensures aes.calls == old(aes.calls) + if old(cacheValid && cachedKey == key) then 0 else 1
    {
      hide Subkey, IsCipher;
      if cacheValid && cachedKey == key {
        return true, cachedK1, cachedK2;
      }
      var l;
      ok, l := aes.Encrypt(key, ZERO);
      if !ok {
        assert aes.fault(old(aes.calls));
        return false, [], [];
      }
      k1 := DeriveSubkey(l);
      k2 := DeriveSubkey(k1);
      cachedKey, cachedK1, cachedK2, cacheValid := key, k1, k2, true;
    }

    /** Run the cipher over the blocks before the last. */
    method ChainBlocks(key: bytes, msg: bytes, n: nat) returns (ok: bool, x: bytes)
      requires Valid() && 16 * n <= |msg|
      modifies aes
      ensures ok == NoFault(aes.fault, old(aes.calls), aes.calls) && |x| == 16
      ensures ok ==> x == Chain(aes.cipher, key, msg, n) && aes.calls == old(aes.calls) + n
    {
      hide IsCipher;
      ok, x := true, ZERO;
      for b := 0 to n
        invariant aes.calls == old(aes.calls) + b && NoFault(aes.fault, old(aes.calls), aes.calls)
        invariant ok && x == Chain(aes.cipher, key, msg, b)
      {
        ok, x := aes.Encrypt(key, Xor(x, msg[16 * b..16 * (b + 1)]));
        if !ok {
          assert aes.fault(old(aes.calls) + b);
          return;
        }
      }
    }

    /** The MAC of a message of any length, exactly when no block encryption on the way failed;
        with the subkeys cached it costs one block encryption per block. */
    method Cmac(key: bytes, msg: bytes) returns (ok: bool, out: bytes)
      requires Valid()
      modifies this, aes
      ensures Valid()
      ensures ok == NoFault(aes.fault, old(aes.calls), aes.calls)
      ensures ok ==> out == Mac(aes.cipher, key, msg)
      ensures ok ==> aes.calls == old(aes.calls) + Blocks(|msg|)
                                  + if old(cacheValid && cachedKey == key) then 0 else 1
    {
      hide Subkey, Chain, K1, K2, IsCipher;
      out := [];
      var k1, k2;
      ok, k1, k2 := Subkeys(key);
      if !ok {
        return;
      }
      label derived:
      var blocks, last := MaskLast(msg, k1, k2);
      LastBlockMasked(aes.cipher, key, msg);
      var x;
      ok, x := ChainBlocks(key, msg, blocks - 1);
      FaultsJoin(aes.fault, old(aes.calls), old@derived(aes.calls), aes.calls);
      if !ok {
        return;
      }
      ghost var mid := aes.calls;
      ok, out := aes.Encrypt(key, Xor(x, last));
      FaultsJoin(aes.fault, old(aes.calls), mid, aes.calls);
    }
  }

  lemma FaultsJoin(fault: nat -> bool, a: nat, b: nat, c: nat)
    requires a <= b <= c
    ensures NoFault(fault, a, c) == (NoFault(fault, a, b) && NoFault(fault, b, c))
    ensures c == b + 1 ==> NoFault(fault, b, c) == !fault(b)
  {
  }

  lemma LastBlockMasked(e: Cipher, key: bytes, msg: bytes)
    requires IsCipher(e)
    ensures LastBlock(e, key, msg) == Masked(msg, K1(e, key), K2(e, key))
  {
    hide K1, K2, IsCipher;
  }

  /** The last block under given masks. */
  function Masked(msg: bytes, k1: bytes, k2: bytes): bytes
    requires |k1| == |k2| == 16
  {
    var m := msg[16 * (Blocks(|msg|) - 1)..];
    if |m| == 16 then Xor(m, k1) else Xor(Pad(m), k2)
  }

  method MaskLast(msg: bytes, k1: bytes, k2: bytes) returns (blocks: nat, last: bytes)
    requires |k1| == |k2| == 16
    ensures blocks == Blocks(|msg|) && last == Masked(msg, k1, k2) && |last| == 16
  {
    var len := |msg|;
    blocks := (len + 15) / 16;
    var complete;
    if blocks == 0 {
      blocks, complete := 1, false;
    } else {
      complete := len % 16 == 0;
    }
    var lastOff := 16 * (blocks - 1);
    if complete {
      last := Xor(msg[lastOff..], k1);
    } else {
      last := Xor(Pad(msg[lastOff..]), k2);
    }
  }
}
