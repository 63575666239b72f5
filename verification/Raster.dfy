/**
 * One-bit planes, the place a decoded byte lands in them, and the 2x2 pixel doubling of a
 * half-resolution frame.
 */
module Raster {
  import opened Bits
  import opened Bytes
  import opened Numbers

  const ARENA_BYTES := 15000

  /** A plane of `height` rows of `stride` bytes. */
  datatype Geometry = Geometry(stride: nat, height: nat) {
    predicate Ok() { stride >= 1 && height >= 1 }

    /** One plane fits the frame arena, so the 16-bit byte counters never wrap. */
    predicate Fits() { Ok() && height <= 512 && Plane() <= ARENA_BYTES }

    /** Half-resolution frames need whole 2x2 blocks, as both supported panels have. */
    predicate Even() { Ok() && stride % 2 == 0 && height % 2 == 0 }

    function Plane(): nat { stride * height }
  }

  /** Bytes of one plane on the wire. */
  function WirePlane(g: Geometry, half: bool): nat {
    if half then g.Plane() / 4 else g.Plane()
  }

  // ---- nibble doubling ----

  const NIBBLE_DOUBLE: seq<byte> := [
    0x00, 0x03, 0x0C, 0x0F, 0x30, 0x33, 0x3C, 0x3F,
    0xC0, 0xC3, 0xCC, 0xCF, 0xF0, 0xF3, 0xFC, 0xFF]

  function Doubled(nibble: byte): byte { NIBBLE_DOUBLE[(nibble & 0x0F) as int] }

  /** The table, bit by bit: bit i of the nibble lands in bits 2i and 2i+1. */
  function DoubledBits(n: byte): byte {
    ((n & 1) | ((n & 2) << 1) | ((n & 4) << 2) | ((n & 8) << 3)) * 3
  }

  lemma DoubledIsBits(n: byte)
    ensures Doubled(n) == DoubledBits(n)
  {
  }

  lemma DoubledLinear(a: byte, b: byte)
    ensures Doubled(a ^ b) == Doubled(a) ^ Doubled(b)
  {
    DoubledIsBits(a); DoubledIsBits(b); DoubledIsBits(a ^ b);
    hide Doubled;
  }

  /** The byte a half-resolution byte puts into an even or an odd column. */
  function Spread(b: byte, odd: bool): byte {
    if odd then Doubled(b & 0x0F) else Doubled(b >> 4)
  }

  lemma SpreadLinear(a: byte, b: byte, odd: bool)
    ensures Spread(a ^ b, odd) == Spread(a, odd) ^ Spread(b, odd)
  {
    DoubledLinear(a & 0x0F, b & 0x0F);
    DoubledLinear(a >> 4, b >> 4);
    hide Doubled;
    assert (a ^ b) & 0x0F == (a & 0x0F) ^ (b & 0x0F);
    assert (a ^ b) >> 4 == (a >> 4) ^ (b >> 4);
  }

  // ---- where a decoded byte lands ----

  function Row(g: Geometry, k: nat): nat requires g.Ok() { k / g.stride }

  function Col(g: Geometry, k: nat): nat requires g.Ok() { k % g.stride }

  /** The half-plane byte that plane byte k is doubled from. */
  function HalfSource(g: Geometry, k: nat): nat
    requires g.Ok()
  {
    (Row(g, k) / 2) * (g.stride / 2) + Col(g, k) / 2
  }

  /** First of the four plane bytes that half-plane byte `off` is doubled into. */
  function HalfTarget(g: Geometry, off: nat): nat
    requires g.Even()
  {
    2 * (off / (g.stride / 2)) * g.stride + 2 * (off % (g.stride / 2))
  }

  function Mix(delta: bool, was: byte, b: byte): byte { if delta then was ^ b else b }

  /** All four bytes lie in the plane, in rows 2*hy and 2*hy + 1. */
  lemma HalfTargetInside(g: Geometry, off: nat)
    requires g.Even() && off < WirePlane(g, true)
    ensures HalfTarget(g, off) + g.stride + 1 < g.Plane()
    ensures 2 * (off / (g.stride / 2)) + 1 < g.height
  {
    var hs, hh := g.stride / 2, g.height / 2;
    assert g.stride * g.height == 4 * (hs * hh) by { assert (2 * hs) * (2 * hh) == 4 * (hs * hh); }
    RowOf(off, hh, hs);
    var hy, hx := off / hs, off % hs;
    MulMono(2 * hy + 2, g.height, g.stride);
    assert (2 * hy + 2) * g.stride == 2 * hy * g.stride + 2 * g.stride;
  }

  /** Plane byte k is doubled from `off` exactly when it is one of the four. */
  lemma HalfSourceTargets(g: Geometry, k: nat, off: nat)
    requires g.Even()
    ensures HalfSource(g, k) == off <==>
      var a := HalfTarget(g, off); k == a || k == a + 1 || k == a + g.stride || k == a + g.stride + 1
    ensures HalfSource(g, k) == off ==>
      var a := HalfTarget(g, off); Col(g, k) % 2 == 1 <==> k == a + 1 || k == a + g.stride + 1
  {
    var s, hs := g.stride, g.stride / 2;
    var y, x := Row(g, k), Col(g, k);
    var hy, hx := off / hs, off % hs;
    var a := HalfTarget(g, off);
    assert k == y * s + x;
    assert off == hy * hs + hx;
    DivMod(HalfSource(g, k), y / 2, x / 2, hs);
    assert HalfSource(g, k) == off <==> y / 2 == hy && x / 2 == hx;
    assert (2 * hy + 1) * s == 2 * hy * s + s;
    if k == a || k == a + 1 {
      DivMod(k, 2 * hy, k - 2 * hy * s, s);
    }
    if k == a + s || k == a + s + 1 {
      DivMod(k, 2 * hy + 1, k - (2 * hy + 1) * s, s);
    }
    if y / 2 == hy && x / 2 == hx {
      assert y == 2 * hy || y == 2 * hy + 1;
    }
  }

  /** One decoded byte written at offset `off` of a plane. */
  function PutByte(g: Geometry, half: bool, delta: bool, p: bytes, off: nat, b: byte): (r: bytes)
    requires g.Ok() && (half ==> g.Even())
    requires |p| == g.Plane() && off < WirePlane(g, half)
    ensures |r| == |p|
  {
    if !half then p[off := Mix(delta, p[off], b)]
    else
      HalfTargetInside(g, off);
      var a := HalfTarget(g, off);
      var d0, d1 := Spread(b, false), Spread(b, true);
      p[a := Mix(delta, p[a], d0)]
       [a + 1 := Mix(delta, p[a + 1], d1)]
       [a + g.stride := Mix(delta, p[a + g.stride], d0)]
       [a + g.stride + 1 := Mix(delta, p[a + g.stride + 1], d1)]
  }

  // ---- a whole decoded string on a plane ----

  function Source(g: Geometry, half: bool, k: nat): nat
    requires g.Ok()
  {
    if half then HalfSource(g, k) else k
  }

  function Ink(g: Geometry, half: bool, k: nat, b: byte): byte
    requires g.Ok()
  {
    if half then Spread(b, Col(g, k) % 2 == 1) else b
  }

  /** The plane after the decoded string `out` has been written from offset 0. */
  function Paint(g: Geometry, half: bool, delta: bool, p: bytes, out: bytes): (r: bytes)
    requires g.Ok()
    ensures |r| == |p|
  {
    seq(|p|, k requires 0 <= k < |p| =>
      var i := Source(g, half, k);
      if i < |out| then Mix(delta, p[k], Ink(g, half, k, out[i])) else p[k])
  }

  lemma PaintNothing(g: Geometry, half: bool, delta: bool, p: bytes)
    requires g.Ok()
    ensures Paint(g, half, delta, p, []) == p
  {
  }

  lemma PutHalfByteAt(g: Geometry, delta: bool, p: bytes, out: bytes, b: byte, k: nat)
    requires g.Even() && k < |p| == g.Plane() && |out| < WirePlane(g, true)
    ensures PutByte(g, true, delta, Paint(g, true, delta, p, out), |out|, b)[k]
         == Paint(g, true, delta, p, out + [b])[k]
  {
    hide Spread, HalfSource, Col;
    HalfTargetInside(g, |out|);
    HalfSourceTargets(g, k, |out|);
  }

  /** Writing one more byte is painting one more byte of the string. */
  lemma PutBytePaints(g: Geometry, half: bool, delta: bool, p: bytes, out: bytes, b: byte)
    requires g.Ok() && (half ==> g.Even())
    requires |p| == g.Plane() && |out| < WirePlane(g, half)
    ensures PutByte(g, half, delta, Paint(g, half, delta, p, out), |out|, b)
         == Paint(g, half, delta, p, out + [b])
  {
    if half {
      hide PutByte, Paint;
      var q := Paint(g, half, delta, p, out);
      var r := PutByte(g, half, delta, q, |out|, b);
      forall k | 0 <= k < |p| ensures r[k] == Paint(g, half, delta, p, out + [b])[k] {
        PutHalfByteAt(g, delta, p, out, b, k);
      }
    }
  }

  // ---- pictures ----

  /** The plane a wire picture stands for: itself, or its 2x2 pixel doubling. */
  function Render(g: Geometry, half: bool, pic: bytes): (r: bytes)
    requires g.Ok() && (half ==> g.Even()) && |pic| == WirePlane(g, half)
    ensures |r| == g.Plane()
  {
    seq(g.Plane(), k requires 0 <= k < g.Plane() =>
      SourceInside(g, half, k);
      Ink(g, half, k, pic[Source(g, half, k)]))
  }

  lemma SourceInside(g: Geometry, half: bool, k: nat)
    requires g.Ok() && (half ==> g.Even()) && k < g.Plane()
    ensures Source(g, half, k) < WirePlane(g, half)
  {
    if half {
      var hs, hh := g.stride / 2, g.height / 2;
      assert g.stride * g.height == 4 * (hs * hh) by { assert (2 * hs) * (2 * hh) == 4 * (hs * hh); }
      RowOf(k, g.height, g.stride);
      MulMono(Row(g, k) / 2 + 1, hh, hs);
      assert (Row(g, k) / 2 + 1) * hs == Row(g, k) / 2 * hs + hs;
    }
  }

  /** A keyframe overwrites every byte, whatever was there before. */
  lemma KeyframePaints(g: Geometry, half: bool, p: bytes, pic: bytes)
    requires g.Ok() && (half ==> g.Even())
    requires |p| == g.Plane() && |pic| == WirePlane(g, half)
    ensures Paint(g, half, false, p, pic) == Render(g, half, pic)
  {
    hide Source, Ink, WirePlane;
    forall k | 0 <= k < |p| ensures Paint(g, half, false, p, pic)[k] == Render(g, half, pic)[k] {
      SourceInside(g, half, k);
    }
  }

  lemma InkDelta(g: Geometry, half: bool, k: nat, a: byte, b: byte, d: byte)
    requires g.Ok() && d == b ^ a
    ensures Mix(true, Ink(g, half, k, a), Ink(g, half, k, d)) == Ink(g, half, k, b)
  {
    hide Spread, Col;
    if half {
      var odd := Col(g, k) % 2 == 1;
      SpreadLinear(b, a, odd);
      XorRestores(Spread(b, odd), Spread(a, odd));
    } else {
      XorRestores(b, a);
    }
  }

  /** A delta applied to the picture it was taken against yields the new picture, at full
      and at half resolution alike: doubling commutes with exclusive or. */
  lemma DeltaPaints(g: Geometry, half: bool, prev: bytes, pic: bytes)
    requires g.Ok() && (half ==> g.Even())
    requires |prev| == |pic| == WirePlane(g, half)
    ensures Paint(g, half, true, Render(g, half, prev), Xor(pic, prev)) == Render(g, half, pic)
  {
    hide Paint, Render;
    var q := Paint(g, half, true, Render(g, half, prev), Xor(pic, prev));
    forall k | 0 <= k < g.Plane() ensures q[k] == Render(g, half, pic)[k] {
      DeltaPaintsAt(g, half, prev, pic, k);
    }
  }

  lemma DeltaPaintsAt(g: Geometry, half: bool, prev: bytes, pic: bytes, k: nat)
    requires g.Ok() && (half ==> g.Even()) && k < g.Plane()
    requires |prev| == |pic| == WirePlane(g, half)
    ensures Paint(g, half, true, Render(g, half, prev), Xor(pic, prev))[k] == Render(g, half, pic)[k]
  {
    hide Source, Ink, WirePlane, Mix;
    SourceInside(g, half, k);
    var i := Source(g, half, k);
    InkDelta(g, half, k, prev[i], pic[i], Xor(pic, prev)[i]);
  }

  // ---- the same in pixels ----

  /** Pixel (x, y) of a plane, most significant bit leftmost. */
  predicate Pixel(stride: nat, p: bytes, x: nat, y: nat)
    requires x < 8 * stride && y * stride + x / 8 < |p|
  {
    BitAt(p[y * stride + x / 8], x % 8)
  }

  lemma SpreadBit(b: byte, odd: bool, j: nat)
    requires j < 8
    ensures BitAt(Spread(b, odd), j) == BitAt(b, (if odd then 4 else 0) + j / 2)
  {
    DoubledIsBits(b >> 4);
    DoubledIsBits(b & 0x0F);
    hide Doubled;
  }

  lemma PixelAddress(g: Geometry, x: nat, y: nat)
    requires g.Even() && x < 8 * g.stride && y < g.height
    ensures y * g.stride + x / 8 < g.Plane()
    ensures Col(g, y * g.stride + x / 8) == x / 8
    ensures HalfSource(g, y * g.stride + x / 8) == (y / 2) * (g.stride / 2) + x / 2 / 8
  {
    MulMono(y + 1, g.height, g.stride);
    assert (y + 1) * g.stride == y * g.stride + g.stride;
    DivMod(y * g.stride + x / 8, y, x / 8, g.stride);
  }

  /** The framebuffer of a half-resolution stream shows every half pixel as a 2x2 block. */
  lemma RenderDoublesPixels(g: Geometry, pic: bytes, x: nat, y: nat)
    requires g.Even() && |pic| == WirePlane(g, true)
    requires x < 8 * g.stride && y < g.height
    ensures y * g.stride + x / 8 < g.Plane()
    ensures (y / 2) * (g.stride / 2) + x / 2 / 8 < |pic|
    ensures Pixel(g.stride, Render(g, true, pic), x, y) == Pixel(g.stride / 2, pic, x / 2, y / 2)
  {
    PixelAddress(g, x, y);
    var k, i := y * g.stride + x / 8, (y / 2) * (g.stride / 2) + x / 2 / 8;
    RenderAt(g, pic, k);
    SpreadBit(pic[i], (x / 8) % 2 == 1, x % 8);
    hide Spread, BitAt, HalfSource, Col, Render;
    HalfColumn(x);
  }

  lemma HalfColumn(x: nat)
    ensures (if x / 8 % 2 == 1 then 4 else 0) + x % 8 / 2 == x / 2 % 8
  {
    var q := x / 16;
    var r := x - 16 * q;
    var odd := if r < 8 then 0 else 1;
    DivMod(x, 2 * q + odd, r - 8 * odd, 8);
    DivMod(x / 8, q, odd, 2);
    DivMod(x / 2, q, r / 2, 8);
  }

  lemma RenderAt(g: Geometry, pic: bytes, k: nat)
    requires g.Even() && |pic| == WirePlane(g, true) && k < g.Plane()
    ensures HalfSource(g, k) < |pic|
    ensures Render(g, true, pic)[k] == Spread(pic[HalfSource(g, k)], Col(g, k) % 2 == 1)
  {
    SourceInside(g, true, k);
  }
}
