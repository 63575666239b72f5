/** Bytes, byte strings and the little arithmetic every other module shares. */
module Bytes {
  type byte = bv8
  type bytes = seq<bv8>

  datatype Option<+T> = None | Some(value: T)

  /** Byte-wise exclusive or; like zip, it stops at the end of the shorter string. */
  function Xor(a: bytes, b: bytes): (r: bytes)
    ensures |r| == Min(|a|, |b|)
    ensures forall k :: 0 <= k < |r| ==> r[k] == a[k] ^ b[k]
  {
    seq(Min(|a|, |b|), k requires 0 <= k < Min(|a|, |b|) => a[k] ^ b[k])
  }

  function Min(x: int, y: int): int { if x < y then x else y }

  function Max(x: int, y: int): int { if x < y then y else x }

  function Repeat<T>(v: T, n: nat): (r: seq<T>)
    ensures |r| == n && forall k :: 0 <= k < n ==> r[k] == v
  {
    seq(n, _ => v)
  }

  lemma RepeatPeel<T>(v: T, n: nat)
    requires n > 0
    ensures Repeat(v, n) == [v] + Repeat(v, n - 1)
    ensures Repeat(v, n) == Repeat(v, n - 1) + [v]
  {
  }

  /** Adding a delta to the picture it was taken against gives the new picture. */
  lemma XorRestores(a: byte, b: byte)
    ensures (a ^ b) ^ b == a
    ensures b ^ (a ^ b) == a
    ensures a ^ 0 == a
  {
  }

  lemma ByteModulo(x: int)
    requires 0 <= x < 256
    ensures (x as byte) as int == x % 256
  {
  }

  lemma SmallModulo(x: int)
    requires 0 <= x < 256
    ensures x % 256 == x
  {
  }

  /** A number that fits a byte survives the trip through the byte. */
  lemma ByteOf(x: int)
    requires 0 <= x < 256
    ensures (x as byte) as int == x
  {
    SmallModulo(x);
    ByteModulo(x);
  }

  /** A 16-bit number split into two bytes, as every wire format here splits it. */
  function HighByte(x: int): byte
    requires 0 <= x < 0x1_0000
  {
    (x / 256) as byte
  }

  function LowByte(x: int): byte { (x % 256) as byte }

  lemma SplitJoin(x: int)
    requires 0 <= x < 0x1_0000
    ensures HighByte(x) as int * 256 + LowByte(x) as int == x
  {
    ByteOf(x / 256);
    ByteOf(x % 256);
  }

  lemma JoinSplit(low: byte, high: byte)
    ensures low as int + 256 * high as int < 0x1_0000
    ensures LowByte(low as int + 256 * high as int) == low && HighByte(low as int + 256 * high as int) == high
  {
    Halves(low as int, high as int);
    ByteBack(low);
    ByteBack(high);
  }

  lemma Halves(l: int, h: int)
    requires 0 <= l < 256 && 0 <= h < 256
    ensures (l + 256 * h) % 256 == l && (l + 256 * h) / 256 == h && l + 256 * h < 0x1_0000
  {
  }

  lemma ByteBack(b: byte)
    ensures 0 <= b as int < 256 && (b as int) as byte == b
  {
  }
}
