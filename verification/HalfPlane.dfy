/**
 * The hosts' 2x2 downsampling of a plane: each half pixel is the majority of its block, ties
 * white. Downsampling a doubled plane gives the half plane back.
 */
module HalfPlane {
  import opened Bits
  import opened Bytes
  import opened Numbers
  import opened Raster

  function White(b: byte, j: nat): nat
    requires j < 8
  {
    if BitAt(b, j) then 1 else 0
  }

  /** White pixels among the two neighbours 2k and 2k + 1 of a pair of bytes. */
  function PairWhites(b0: byte, b1: byte, k: nat): nat
    requires k < 8
  {
    if k < 4 then White(b0, 2 * k) + White(b0, 2 * k + 1)
    else White(b1, 2 * k - 8) + White(b1, 2 * k - 7)
  }

  /** Half-plane byte `o` is the majority of the four plane bytes its pixels come from. */
  predicate IsMajority(o: byte, top0: byte, top1: byte, bot0: byte, bot1: byte) {
    forall k :: 0 <= k < 8 ==>
      (BitAt(o, k) <==> PairWhites(top0, top1, k) + PairWhites(bot0, bot1, k) >= 2)
  }

  /** The downsampled plane, byte by byte: byte i takes the block that byte i is doubled into. */
  predicate IsHalf(g: Geometry, plane: bytes, half: bytes)
    requires g.Even() && |plane| == g.Plane()
  {
    |half| == WirePlane(g, true) && forall i :: 0 <= i < |half| ==> HalvedAt(g, plane, half[i], i)
  }

  predicate HalvedAt(g: Geometry, plane: bytes, o: byte, i: nat)
    requires g.Even() && |plane| == g.Plane()
  {
    var t := HalfTarget(g, i);
    && t + g.stride + 1 < |plane|
    && IsMajority(o, plane[t], plane[t + 1], plane[t + g.stride], plane[t + g.stride + 1])
  }

  // ---- the web host's loops ----

  function Pair(hi: byte, lo: byte): bv16 { ((hi as bv16) << 8) | (lo as bv16) }

  /** Bit s of a pair, counted from the left. */
  function BitOf(w: bv16, s: nat): bv16
    requires s < 16
  {
    (w >> (15 - s)) & 1
  }

  function Neighbours(w: bv16, k: nat): int
    requires k < 8
  {
    BitOf(w, 2 * k + 1) as int + BitOf(w, 2 * k) as int
  }

  /** The sixteen bits of a pair are those of its two bytes. */
  lemma PairBit(hi: byte, lo: byte, s: nat)
    requires s < 16
    ensures BitOf(Pair(hi, lo), s) == if BitAt(if s < 8 then hi else lo, s % 8) then 1 else 0
  {
    hide Pair;
    if s < 8 { HighBit(hi, lo, (7 - s) as bv16); } else { LowBit(hi, lo, (15 - s) as bv16); }
  }

  lemma HighBit(hi: byte, lo: byte, k: bv16)
    requires k < 8
    ensures (Pair(hi, lo) >> (k + 8)) & 1 == ((hi as bv16) >> k) & 1
  {
  }

  lemma LowBit(hi: byte, lo: byte, k: bv16)
    requires k < 8
    ensures (Pair(hi, lo) >> k) & 1 == ((lo as bv16) >> k) & 1
  {
  }

  lemma NeighboursArePair(hi: byte, lo: byte, k: nat)
    requires k < 8
    ensures Neighbours(Pair(hi, lo), k) == PairWhites(hi, lo, k)
  {
    hide Pair, BitAt, BitOf;
    PairBit(hi, lo, 2 * k);
    PairBit(hi, lo, 2 * k + 1);
  }

  lemma OrSetsBit(o: byte, k: nat, j: nat)
    requires k < 8 && j < 8
    ensures BitAt(o | (0x80 >> k), j) == (j == k || BitAt(o, j))
  {
  }

  method HalfByte(top0: byte, top1: byte, bot0: byte, bot1: byte) returns (o: byte)
    ensures IsMajority(o, top0, top1, bot0, bot1)
  {
    hide BitAt, Pair, Neighbours, PairWhites;
    var wa, wb := Pair(top0, top1), Pair(bot0, bot1);
    o := 0;
    forall j | 0 <= j < 8 ensures !BitAt(0, j) { NoBits(j); }
    for k := 0 to 8
      invariant forall j :: 0 <= j < k ==>
        (BitAt(o, j) <==> PairWhites(top0, top1, j) + PairWhites(bot0, bot1, j) >= 2)
      invariant forall j :: k <= j < 8 ==> !BitAt(o, j)
    {
      NeighboursArePair(top0, top1, k);
      NeighboursArePair(bot0, bot1, k);
      ghost var was := o;
      var n := Neighbours(wa, k) + Neighbours(wb, k);
      if n >= 2 {
        o := o | (0x80 >> k);
        forall j | 0 <= j < 8 ensures BitAt(o, j) == (j == k || BitAt(was, j)) { OrSetsBit(was, k, j); }
      }
    }
  }

  method HalfByteAt(g: Geometry, buf: bytes, r: nat, ob: nat) returns (o: byte)
    requires g.Even() && |buf| == g.Plane() && r < g.height / 2 && ob < g.stride / 2
    ensures HalvedAt(g, buf, o, g.stride / 2 * r + ob)
  {
    hide IsMajority;
    var hstride := g.stride / 2;
    HalfArea(g);
    MulMono(r + 1, g.height / 2, hstride);
    MulNext(r, hstride);
    DivMod(hstride * r + ob, r, ob, hstride);
    HalfTargetInside(g, hstride * r + ob);
    var a := 2 * r * g.stride;
    var b := a + g.stride;
    o := HalfByte(buf[a + 2 * ob], buf[a + 2 * ob + 1], buf[b + 2 * ob], buf[b + 2 * ob + 1]);
  }

  /** halfPlane */
  method HalfPlaneWeb(g: Geometry, buf: bytes) returns (out: array<byte>)
    requires g.Even() && |buf| == g.Plane()
    ensures IsHalf(g, buf, out[..])
  {
    hide HalvedAt, WirePlane;
    var hstride, hh := g.stride / 2, g.height / 2;
    HalfArea(g);
    out := new byte[hstride * hh];
    var row := 0;
    for r := 0 to hh
      invariant row == hstride * r
      invariant forall i :: 0 <= i < row ==> HalvedAt(g, buf, out[i], i)
    {
      MulMono(r + 1, hh, hstride);
      MulNext(r, hstride);
      assert row + hstride <= out.Length;
      for ob := 0 to hstride
        invariant forall i :: 0 <= i < row + ob ==> HalvedAt(g, buf, out[i], i)
      {
        out[row + ob] := HalfByteAt(g, buf, r, ob);
      }
      row := row + hstride;
    }
  }

  lemma HalfArea(g: Geometry)
    requires g.Even()
    ensures (g.stride / 2) * (g.height / 2) == WirePlane(g, true)
  {
    var hs, hh := g.stride / 2, g.height / 2;
    assert (2 * hs) * (2 * hh) == 4 * (hs * hh);
  }

  // ---- the same in pixels ----

  function OneIf(white: bool): nat { if white then 1 else 0 }

  /** Pixel (x, y) of the half plane is white when two or more pixels of its 2x2 block are. */
  lemma HalfPixel(g: Geometry, plane: bytes, half: bytes, x: nat, y: nat)
    requires g.Even() && |plane| == g.Plane() && IsHalf(g, plane, half)
    requires x < 4 * g.stride && y < g.height / 2
    ensures y * (g.stride / 2) + x / 8 < |half| && (2 * y + 1) * g.stride + (2 * x + 1) / 8 < |plane|
    ensures (2 * y) * g.stride + 2 * x / 8 < |plane|
    ensures (2 * y) * g.stride + (2 * x + 1) / 8 < |plane| && (2 * y + 1) * g.stride + 2 * x / 8 < |plane|
    ensures Pixel(g.stride / 2, half, x, y) <==>
      OneIf(Pixel(g.stride, plane, 2 * x, 2 * y)) + OneIf(Pixel(g.stride, plane, 2 * x + 1, 2 * y))
      + OneIf(Pixel(g.stride, plane, 2 * x, 2 * y + 1)) + OneIf(Pixel(g.stride, plane, 2 * x + 1, 2 * y + 1)) >= 2
  {
    hide BitAt, HalfTarget, PairWhites;
    var hs, k := g.stride / 2, x % 8;
    var i := y * hs + x / 8;
    HalfArea(g);
    MulMono(y + 1, g.height / 2, hs);
    MulNext(y, hs);
    TargetOf(g, x / 8, y);
    assert HalvedAt(g, plane, half[i], i);
    var t := HalfTarget(g, i);
    assert (2 * y + 1) * g.stride == 2 * y * g.stride + g.stride;
    BlockColumn(x);
    PairPixels(plane[t], plane[t + 1], k);
    PairPixels(plane[t + g.stride], plane[t + g.stride + 1], k);
  }

  lemma TargetOf(g: Geometry, ob: nat, r: nat)
    requires g.Even() && ob < g.stride / 2
    ensures HalfTarget(g, r * (g.stride / 2) + ob) == 2 * r * g.stride + 2 * ob
  {
    DivMod(r * (g.stride / 2) + ob, r, ob, g.stride / 2);
  }

  /** Columns 2x and 2x + 1 in the two bytes that half byte x / 8 comes from. */
  lemma BlockColumn(x: nat)
    ensures 2 * x / 8 == 2 * (x / 8) + (if x % 8 < 4 then 0 else 1) && (2 * x + 1) / 8 == 2 * x / 8
    ensures 2 * x % 8 == (if x % 8 < 4 then 2 * (x % 8) else 2 * (x % 8) - 8)
    ensures (2 * x + 1) % 8 == 2 * x % 8 + 1
  {
  }

  lemma PairPixels(b0: byte, b1: byte, k: nat)
    requires k < 8
    ensures k < 4 ==> PairWhites(b0, b1, k) == OneIf(BitAt(b0, 2 * k)) + OneIf(BitAt(b0, 2 * k + 1))
    ensures k >= 4 ==> PairWhites(b0, b1, k) == OneIf(BitAt(b1, 2 * k - 8)) + OneIf(BitAt(b1, 2 * k - 7))
  {
    hide BitAt;
  }

  // ---- downsampling undoes doubling ----

  lemma DoubledPair(b: byte, k: nat)
    requires k < 8
    ensures PairWhites(Spread(b, false), Spread(b, true), k) == 2 * White(b, k)
  {
    hide BitAt, Spread;
    if k < 4 {
      SpreadBit(b, false, 2 * k);
      SpreadBit(b, false, 2 * k + 1);
    } else {
      SpreadBit(b, true, 2 * k - 8);
      SpreadBit(b, true, 2 * k - 7);
    }
  }

  lemma MajorityOfDoubled(o: byte, b: byte)
    requires IsMajority(o, Spread(b, false), Spread(b, true), Spread(b, false), Spread(b, true))
    ensures o == b
  {
    hide BitAt, Spread, PairWhites;
    forall j | 0 <= j < 8 ensures BitAt(o, j) == BitAt(b, j) { DoubledPair(b, j); }
    SameBits(o, b);
  }

  lemma DoubledBlock(g: Geometry, half: bytes, i: nat)
    requires g.Even() && |half| == WirePlane(g, true) && i < |half|
    ensures var t, p := HalfTarget(g, i), Render(g, true, half);
      && t + g.stride + 1 < |p|
      && p[t] == p[t + g.stride] == Spread(half[i], false)
      && p[t + 1] == p[t + g.stride + 1] == Spread(half[i], true)
  {
    hide Spread, HalfSource, HalfTarget, Render, Col;
    HalfTargetInside(g, i);
    var t := HalfTarget(g, i);
    BlockByte(g, half, i, t);
    BlockByte(g, half, i, t + 1);
    BlockByte(g, half, i, t + g.stride);
    BlockByte(g, half, i, t + g.stride + 1);
  }

  lemma BlockByte(g: Geometry, half: bytes, i: nat, k: nat)
    requires g.Even() && |half| == WirePlane(g, true) && i < |half| && k < g.Plane()
    requires var t := HalfTarget(g, i); k == t || k == t + 1 || k == t + g.stride || k == t + g.stride + 1
    ensures var t := HalfTarget(g, i);
      Render(g, true, half)[k] == Spread(half[i], k == t + 1 || k == t + g.stride + 1)
  {
    hide Spread, HalfSource, Render, Col;
    HalfSourceTargets(g, k, i);
    RenderAt(g, half, k);
  }

  /** The hosts' downsampling of a doubled plane is the half plane it was doubled from. */
  lemma HalfOfDoubled(g: Geometry, half: bytes, again: bytes)
    requires g.Even() && |half| == WirePlane(g, true)
    requires IsHalf(g, Render(g, true, half), again)
    ensures again == half
  {
    hide IsMajority, Spread, Render, WirePlane, HalfTarget;
    forall i | 0 <= i < |half| ensures again[i] == half[i] {
      assert HalvedAt(g, Render(g, true, half), again[i], i);
      DoubledBlock(g, half, i);
      MajorityOfDoubled(again[i], half[i]);
    }
  }
}
