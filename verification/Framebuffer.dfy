/**
 * The framebuffer of a video stream and the one place decoded bytes enter it. A frame is a
 * string of decoded bytes laid over the black-and-white plane and, for the dual encodings,
 * over the red plane after it.
 */
module Framebuffer {
  import opened Bytes
  import opened Numbers
  import opened Raster
  import opened PanelRam

  const INT_MAX := 0x7FFF_FFFF

  /** How a frame lays its bytes down. */
  datatype Style = Style(dual: bool, delta: bool, half: bool)

  /** Both planes, the count of bytes decoded so far and the rows a delta has touched. */
  datatype Canvas = Canvas(g: Geometry, bw: bytes, red: Option<bytes>, dec: nat, y0: int, y1: int) {
    predicate Ok() {
      && g.Fits()
      && |bw| == g.Plane()
      && (red.Some? ==> |red.value| == g.Plane())
    }

    /** Half-resolution bytes land in whole 2x2 blocks. */
    predicate Takes(s: Style) { Ok() && (s.half ==> g.Even()) }

    /** What the display manager sends for the red plane: zeros when the panel has none. */
    function RedPlane(): bytes { if red.Some? then red.value else NoRed(g) }
  }

  function MaxDec(g: Geometry, s: Style): nat {
    if s.dual then 2 * WirePlane(g, s.half) else WirePlane(g, s.half)
  }

  /** vs_reset_frame, the canvas half. */
  function Restart(c: Canvas): Canvas { c.(dec := 0, y0 := INT_MAX, y1 := -1) }

  function MarkDirty(c: Canvas, row: int): Canvas {
    c.(y0 := Min(c.y0, row), y1 := Max(c.y1, row))
  }

  function MarkByte(c: Canvas, half: bool, off: nat): (r: Canvas)
    requires c.Ok() && (half ==> c.g.Even())
    ensures r == c.(y0 := r.y0, y1 := r.y1)
  {
    if half then
      var hy := off / (c.g.stride / 2);
      MarkDirty(MarkDirty(c, 2 * hy), 2 * hy + 1)
    else MarkDirty(c, off / c.g.stride)
  }

  function WriteByte(c: Canvas, s: Style, b: byte): (r: Canvas)
    requires c.Takes(s)
    ensures r.Ok() && r.g == c.g
  {
    var plane := WirePlane(c.g, s.half);
    if c.dec >= MaxDec(c.g, s) then c
    else if s.dual && c.dec >= plane then
      match c.red
      case None => c.(dec := c.dec + 1)
      case Some(p) =>
        var off := c.dec - plane;
        var m := if s.delta && b != 0 then MarkByte(c, s.half, off) else c;
        m.(red := Some(PutByte(c.g, s.half, s.delta, p, off, b)), dec := c.dec + 1)
    else
      var m := if s.delta && b != 0 then MarkByte(c, s.half, c.dec) else c;
      m.(bw := PutByte(c.g, s.half, s.delta, c.bw, c.dec, b), dec := c.dec + 1)
  }

  function WriteAll(c: Canvas, s: Style, out: bytes): (r: Canvas)
    requires c.Takes(s)
    ensures r.Ok() && r.g == c.g
    decreases |out|
  {
    if out == [] then c else WriteByte(WriteAll(c, s, out[..|out| - 1]), s, out[|out| - 1])
  }

  lemma {:induction false} WriteAllConcat(c: Canvas, s: Style, a: bytes, b: bytes)
    requires c.Takes(s)
    ensures WriteAll(c, s, a + b) == WriteAll(WriteAll(c, s, a), s, b)
    decreases |b|
  {
    hide WriteByte;
    if b == [] {
      assert a + b == a;
    } else {
      var n := |b| - 1;
      WriteAllConcat(c, s, a, b[..n]);
      assert (a + b)[..|a + b| - 1] == a + b[..n];
    }
  }

  /** A single-plane frame leaves the red plane alone. */
  lemma {:induction false} WriteAllKeepsRed(c: Canvas, s: Style, out: bytes)
    requires c.Takes(s) && !s.dual
    ensures WriteAll(c, s, out).red == c.red
    decreases |out|
  {
    if out != [] { WriteAllKeepsRed(c, s, out[..|out| - 1]); }
  }

  lemma WriteAllOne(c: Canvas, s: Style, b: byte)
    requires c.Takes(s)
    ensures WriteAll(c, s, [b]) == WriteByte(c, s, b)
  {
    hide WriteByte;
    assert WriteAll(c, s, [b][..0]) == c;
  }

  /** A full frame takes no more bytes. */
  lemma {:induction false} WriteAllFull(c: Canvas, s: Style, out: bytes)
    requires c.Takes(s) && c.dec >= MaxDec(c.g, s)
    ensures WriteAll(c, s, out) == c
    decreases |out|
  {
    if out != [] { WriteAllFull(c, s, out[..|out| - 1]); }
  }

  // ---- the frame as a whole ----

  /** The part of a decoded string that falls on the black-and-white plane. */
  function FirstPart(plane: nat, out: bytes): bytes { out[..Min(plane, |out|)] }

  /** The part that falls on the red plane. */
  function SecondPart(plane: nat, out: bytes): bytes {
    if |out| <= plane then [] else out[plane..Min(2 * plane, |out|)]
  }

  /** The canvas holds `out` laid over the planes of `c0`. */
  predicate Laid(c0: Canvas, c: Canvas, s: Style, out: bytes)
    requires c0.Takes(s)
  {
    var plane := WirePlane(c0.g, s.half);
    && c.g == c0.g
    && c.dec == Min(|out|, MaxDec(c0.g, s))
    && c.bw == Paint(c0.g, s.half, s.delta, c0.bw, FirstPart(plane, out))
    && (s.dual && c0.red.Some? ==>
          c.red == Some(Paint(c0.g, s.half, s.delta, c0.red.value, SecondPart(plane, out))))
    && (!s.dual || c0.red.None? ==> c.red == c0.red)
  }

  lemma LaidStepFull(c0: Canvas, c: Canvas, s: Style, out: bytes, b: byte)
    requires c0.Takes(s) && c.Ok() && Laid(c0, c, s, out) && |out| >= MaxDec(c0.g, s)
    ensures Laid(c0, WriteByte(c, s, b), s, out + [b])
  {
    hide Paint, PutByte, MarkByte, WirePlane;
    var plane := WirePlane(c0.g, s.half);
    assert FirstPart(plane, out + [b]) == FirstPart(plane, out);
    if s.dual { assert SecondPart(plane, out + [b]) == SecondPart(plane, out); }
  }

  lemma LaidStepRed(c0: Canvas, c: Canvas, s: Style, out: bytes, b: byte)
    requires c0.Takes(s) && c.Ok() && Laid(c0, c, s, out)
    requires s.dual && WirePlane(c0.g, s.half) <= |out| < MaxDec(c0.g, s)
    ensures Laid(c0, WriteByte(c, s, b), s, out + [b])
  {
    hide Paint, PutByte, MarkByte, WirePlane;
    var plane := WirePlane(c0.g, s.half);
    assert FirstPart(plane, out + [b]) == FirstPart(plane, out);
    assert SecondPart(plane, out + [b]) == SecondPart(plane, out) + [b];
    if c0.red.Some? {
      PutBytePaints(c0.g, s.half, s.delta, c0.red.value, SecondPart(plane, out), b);
    }
  }

  lemma LaidStepBw(c0: Canvas, c: Canvas, s: Style, out: bytes, b: byte)
    requires c0.Takes(s) && c.Ok() && Laid(c0, c, s, out)
    requires |out| < WirePlane(c0.g, s.half)
    ensures Laid(c0, WriteByte(c, s, b), s, out + [b])
  {
    hide Paint, PutByte, MarkByte, WirePlane;
    var plane := WirePlane(c0.g, s.half);
    assert FirstPart(plane, out) == out;
    assert FirstPart(plane, out + [b]) == out + [b];
    assert SecondPart(plane, out + [b]) == [] == SecondPart(plane, out);
    PutBytePaints(c0.g, s.half, s.delta, c0.bw, out, b);
  }

  lemma LaidStep(c0: Canvas, c: Canvas, s: Style, out: bytes, b: byte)
    requires c0.Takes(s) && c.Ok() && Laid(c0, c, s, out)
    ensures Laid(c0, WriteByte(c, s, b), s, out + [b])
  {
    hide Laid, WirePlane, WriteByte;
    if |out| >= MaxDec(c0.g, s) {
      LaidStepFull(c0, c, s, out, b);
    } else if s.dual && |out| >= WirePlane(c0.g, s.half) {
      LaidStepRed(c0, c, s, out, b);
    } else {
      LaidStepBw(c0, c, s, out, b);
    }
  }

  lemma {:induction false} WriteAllLays(c: Canvas, s: Style, out: bytes)
    requires c.Takes(s) && c.dec == 0
    ensures Laid(c, WriteAll(c, s, out), s, out)
    decreases |out|
  {
    hide WriteByte, Laid;
    if out == [] {
      LaidNothing(c, s);
    } else {
      var n := |out| - 1;
      WriteAllLays(c, s, out[..n]);
      LaidStep(c, WriteAll(c, s, out[..n]), s, out[..n], out[n]);
      assert out[..n] + [out[n]] == out;
    }
  }

  lemma LaidNothing(c: Canvas, s: Style)
    requires c.Takes(s) && c.dec == 0
    ensures Laid(c, c, s, [])
  {
    PaintNothing(c.g, s.half, s.delta, c.bw);
    if c.red.Some? { PaintNothing(c.g, s.half, s.delta, c.red.value); }
  }

  // ---- pictures ----

  /** A wire picture: one plane, or both planes one after the other. */
  predicate IsPicture(g: Geometry, s: Style, pic: bytes) { |pic| == MaxDec(g, s) }

  /** The framebuffer shows the picture (the red half is swallowed on a panel without red). */
  predicate Shows(c: Canvas, s: Style, pic: bytes)
    requires c.Takes(s)
  {
    && IsPicture(c.g, s, pic)
    && var plane := WirePlane(c.g, s.half);
    && c.bw == Render(c.g, s.half, pic[..plane])
    && (s.dual && c.red.Some? ==> c.red.value == Render(c.g, s.half, pic[plane..]))
  }

  /** A complete keyframe makes the framebuffer show its picture, whatever was there. */
  lemma KeyframeShows(c0: Canvas, c: Canvas, s: Style, pic: bytes)
    requires c0.Takes(s) && c.Ok() && !s.delta && IsPicture(c0.g, s, pic)
    requires Laid(c0, c, s, pic)
    ensures Shows(c, s, pic)
  {
    hide Paint, Render, WirePlane;
    var plane := WirePlane(c0.g, s.half);
    assert FirstPart(plane, pic) == pic[..plane];
    KeyframePaints(c0.g, s.half, c0.bw, pic[..plane]);
    if s.dual && c0.red.Some? {
      assert SecondPart(plane, pic) == pic[plane..];
      KeyframePaints(c0.g, s.half, c0.red.value, pic[plane..]);
    }
  }

  /** A complete delta moves the framebuffer from the picture it was taken against to the
      new one. */
  lemma DeltaShows(c0: Canvas, c: Canvas, s: Style, prev: bytes, pic: bytes)
    requires c0.Takes(s) && c.Ok() && s.delta
    requires IsPicture(c0.g, s, prev) && IsPicture(c0.g, s, pic)
    requires Shows(c0, s, prev) && Laid(c0, c, s, Xor(pic, prev))
    ensures Shows(c, s, pic)
  {
    hide Paint, Render, WirePlane;
    var plane := WirePlane(c0.g, s.half);
    assert FirstPart(plane, Xor(pic, prev)) == Xor(pic[..plane], prev[..plane]);
    DeltaPaints(c0.g, s.half, prev[..plane], pic[..plane]);
    if s.dual && c0.red.Some? {
      assert SecondPart(plane, Xor(pic, prev)) == Xor(pic[plane..], prev[plane..]);
      DeltaPaints(c0.g, s.half, prev[plane..], pic[plane..]);
    }
  }

  // ---- dirty rows ----

  /** The rows the i-th decoded byte falls on. */
  function TopRow(g: Geometry, half: bool, i: nat): nat
    requires g.Ok() && (half ==> g.Even())
  {
    if half then 2 * (i / (g.stride / 2)) else i / g.stride
  }

  function BottomRow(g: Geometry, half: bool, i: nat): nat
    requires g.Ok() && (half ==> g.Even())
  {
    TopRow(g, half, i) + if half then 1 else 0
  }

  /** Byte i of the delta changes something. */
  predicate Touches(out: bytes, n: nat, i: nat) { i < n && i < |out| && out[i] != 0 }

  /** The dirty range of a delta reaches from the first to the last row that one of its non-zero
      bytes falls on, no further; it is empty when there is no such byte. */
  ghost predicate Spans(g: Geometry, half: bool, out: bytes, y0: int, y1: int)
    requires g.Ok() && (half ==> g.Even())
  {
    var n := WirePlane(g, half);
    && (forall i: nat :: Touches(out, n, i) ==> y0 <= TopRow(g, half, i) && BottomRow(g, half, i) <= y1)
    && ((y0 == INT_MAX && y1 == -1)
        || exists i: nat, j: nat :: Touches(out, n, i) && Touches(out, n, j)
                                    && y0 == TopRow(g, half, i) && y1 == BottomRow(g, half, j))
  }

  lemma RowsFit(g: Geometry, half: bool, i: nat)
    requires g.Fits() && (half ==> g.Even()) && i < WirePlane(g, half)
    ensures 0 <= TopRow(g, half, i) <= BottomRow(g, half, i) < g.height < INT_MAX
  {
    if half { HalfTargetInside(g, i); } else { RowOf(i, g.height, g.stride); }
  }

  /** One more byte widens the range by its own rows when it changes something. */
  lemma SpanGrows(g: Geometry, half: bool, out: bytes, b: byte, y0: int, y1: int)
    requires g.Fits() && (half ==> g.Even()) && Spans(g, half, out, y0, y1)
    ensures var i, n := |out|, WirePlane(g, half);
      if b != 0 && i < n
      then Spans(g, half, out + [b], Min(y0, TopRow(g, half, i)), Max(y1, BottomRow(g, half, i)))
      else Spans(g, half, out + [b], y0, y1)
  {
    hide TopRow, BottomRow, WirePlane;
    var n, o := WirePlane(g, half), out + [b];
    assert forall i: nat :: Touches(o, n, i) <==> Touches(out, n, i) || (i == |out| && i < n && b != 0);
    if |out| < n { RowsFit(g, half, |out|); }
    if b != 0 && |out| < n {
      assert Touches(o, n, |out|);
      if !(y0 == INT_MAX && y1 == -1) {
        var i: nat, j: nat :| Touches(out, n, i) && Touches(out, n, j)
          && y0 == TopRow(g, half, i) && y1 == BottomRow(g, half, j);
        assert Touches(o, n, i) && Touches(o, n, j);
      }
    }
  }

  /** So a single-plane delta asks for exactly the rows it may have changed. */
  lemma {:induction false} DeltaSpans(c: Canvas, s: Style, out: bytes)
    requires c.Takes(s) && s.delta && !s.dual
    ensures var r := WriteAll(Restart(c), s, out);
      r.dec == Min(|out|, MaxDec(c.g, s)) && Spans(c.g, s.half, out, r.y0, r.y1)
    decreases |out|
  {
    hide Spans, PutByte, WirePlane;
    if out == [] {
      NothingSpans(c.g, s.half);
    } else {
      var n := |out| - 1;
      DeltaSpans(c, s, out[..n]);
      assert out[..n] + [out[n]] == out;
      var m := WriteAll(Restart(c), s, out[..n]);
      SpanGrows(c.g, s.half, out[..n], out[n], m.y0, m.y1);
    }
  }

  lemma NothingSpans(g: Geometry, half: bool)
    requires g.Ok() && (half ==> g.Even())
    ensures Spans(g, half, [], INT_MAX, -1)
  {
  }

  /** The framebuffer differs from `ram` at most in the rows marked dirty. */
  predicate DirtyCovers(c: Canvas, ram: bytes)
    requires c.Ok() && |ram| == c.g.Plane()
  {
    AgreeOutside(c.g, ram, c.bw, c.y0, c.y1)
  }

  lemma PutByteChanges(g: Geometry, half: bool, p: bytes, off: nat, b: byte, k: nat)
    requires g.Ok() && (half ==> g.Even()) && k < |p| == g.Plane() && off < WirePlane(g, half)
    requires PutByte(g, half, true, p, off, b)[k] != p[k]
    ensures b != 0 && Source(g, half, k) == off
  {
    hide Spread, HalfSource, HalfTarget, WirePlane, Col;
    if half {
      HalfByteChanges(g, p, off, b, k);
    } else {
      ZeroKeeps(p[k]);
    }
  }

  lemma HalfByteChanges(g: Geometry, p: bytes, off: nat, b: byte, k: nat)
    requires g.Ok() && g.Even() && k < |p| == g.Plane() && off < WirePlane(g, true)
    requires PutByte(g, true, true, p, off, b)[k] != p[k]
    ensures b != 0 && HalfSource(g, k) == off
  {
    hide Spread, HalfSource, HalfTarget, WirePlane, Col;
    ZeroKeeps(p[k]);
    HalfTargetInside(g, off);
    HalfSourceTargets(g, k, off);
  }

  lemma ZeroKeeps(was: byte)
    ensures was ^ Spread(0, false) == was && was ^ Spread(0, true) == was && was ^ 0 == was
  {
  }

  lemma RowOfSource(g: Geometry, k: nat)
    requires g.Even()
    ensures HalfSource(g, k) / (g.stride / 2) == Row(g, k) / 2
  {
    DivMod(HalfSource(g, k), Row(g, k) / 2, Col(g, k) / 2, g.stride / 2);
  }

  lemma PutByteMarked(c: Canvas, half: bool, b: byte, off: nat, k: nat)
    requires c.Ok() && (half ==> c.g.Even()) && off < WirePlane(c.g, half) && k < c.g.Plane()
    requires PutByte(c.g, half, true, c.bw, off, b)[k] != c.bw[k]
    ensures b != 0
    ensures var m := MarkByte(c, half, off); m.y0 <= Row(c.g, k) <= m.y1
  {
    PutByteChanges(c.g, half, c.bw, off, b, k);
    if half { RowOfSource(c.g, k); }
    hide PutByte, HalfSource;
  }

  /** Every byte a delta changes lies in a row it marks dirty. */
  lemma DeltaMarks(c: Canvas, s: Style, b: byte, ram: bytes)
    requires c.Takes(s) && |ram| == c.g.Plane() && s.delta && !s.dual
    requires DirtyCovers(c, ram)
    ensures DirtyCovers(WriteByte(c, s, b), ram)
  {
    hide PutByte, Row;
    var r := WriteByte(c, s, b);
    forall k | 0 <= k < c.g.Plane() && !(r.y0 <= Row(c.g, k) <= r.y1) ensures ram[k] == r.bw[k] {
      if r.bw[k] != c.bw[k] {
        PutByteMarked(c, s.half, b, c.dec, k);
      }
    }
  }
}
