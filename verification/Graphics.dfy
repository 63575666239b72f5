/**
 * Drawing on a canvas of one or two bit planes: one pixel at a time, and filled rectangles a
 * row of bytes at a time. The two are proved to leave the same bytes.
 */
module Graphics {
  import opened Bits
  import opened Bytes
  import opened Numbers

  const BLACK := 0
  const WHITE := 1
  const RED := 2
  const GRAY := 3
  const PINK := 4

  /** What a canvas is besides its planes: size in pixels, rotation, render mode, and how many
      bytes of each plane may be written, which need not be the whole picture. */
  datatype Sheet = Sheet(width: nat, height: nat, rotation: nat, mask: bool, size: nat) {
    function Stride(): nat { width / 8 }
    function LogicalWidth(): nat { if rotation % 2 == 0 then width else height }
    function LogicalHeight(): nat { if rotation % 2 == 0 then height else width }
  }

  datatype Planes = Planes(bw: bytes, red: Option<bytes>)

  predicate Fits(g: Sheet, p: Planes) {
    g.rotation < 4 && g.size <= |p.bw| && (p.red.Some? ==> g.size <= |p.red.value|)
  }

  /** canvas_map_point: logical to physical. */
  function MapX(g: Sheet, x: int, y: int): int {
    if g.rotation == 1 then g.width - 1 - y
    else if g.rotation == 2 then g.width - 1 - x
    else if g.rotation == 3 then y
    else x
  }

  function MapY(g: Sheet, x: int, y: int): int {
    if g.rotation == 1 then x
    else if g.rotation == 2 then g.height - 1 - y
    else if g.rotation == 3 then g.height - 1 - x
    else y
  }

  function Plot(p: bytes, k: nat, j: nat, on: bool): bytes
    requires k < |p| && j < 8
  {
    p[k := SetBit(p[k], j, on)]
  }

  /** Put a colour on one bit of the planes. */
  function Dot(g: Sheet, p: Planes, k: nat, j: nat, color: int): (q: Planes)
    requires Fits(g, p) && k < g.size && j < 8
    ensures Fits(g, q)
  {
    if g.mask then
      if color == RED then p.(bw := Plot(p.bw, k, j, true))
      else if color == BLACK || color == WHITE then p.(bw := Plot(p.bw, k, j, false))
      else p
    else if color != BLACK && color != WHITE && color != RED then p
    else
      Planes(Plot(p.bw, k, j, color != BLACK),
             if p.red.Some? then Some(Plot(p.red.value, k, j, color == RED)) else None)
  }

  /** GRAY and PINK alternate real inks on logical coordinates. */
  function Dithered(color: int, x: int, y: int): int {
    if color == GRAY then if (x + y) % 2 == 0 then BLACK else WHITE
    else if color == PINK then if (x + y) % 2 == 0 then RED else WHITE
    else color
  }

  /** Where the pixel at logical (x, y) lives, if it may be drawn. */
  predicate Visible(g: Sheet, x: int, y: int) {
    && 0 <= x < g.LogicalWidth() && 0 <= y < g.LogicalHeight()
    && 0 <= MapX(g, x, y) < g.width && 0 <= MapY(g, x, y) < g.height
    && MapY(g, x, y) * g.Stride() + MapX(g, x, y) / 8 < g.size
  }

  /** graphics_draw_pixel */
  function DrawPixel(g: Sheet, p: Planes, x: int, y: int, color: int): (q: Planes)
    requires Fits(g, p)
    ensures Fits(g, q)
  {
    if !Visible(g, x, y) then p
    else Dot(g, p, MapY(g, x, y) * g.Stride() + MapX(g, x, y) / 8, MapX(g, x, y) % 8, Dithered(color, x, y))
  }

  /** Pixels x up to x + n of row y, left to right. */
  function RowLoop(g: Sheet, p: Planes, x: int, n: nat, y: int, color: int): (q: Planes)
    requires Fits(g, p)
    ensures Fits(g, q)
  {
    if n == 0 then p else DrawPixel(g, RowLoop(g, p, x, n - 1, y, color), x + n - 1, y, color)
  }

  /** Rows y up to y + n, top to bottom: the rectangle drawn pixel by pixel. */
  function PixelLoop(g: Sheet, p: Planes, x: int, y: int, width: nat, n: nat, color: int): (q: Planes)
    requires Fits(g, p)
    ensures Fits(g, q)
  {
    if n == 0 then p else RowLoop(g, PixelLoop(g, p, x, y, width, n - 1, color), x, width, y + n - 1, color)
  }

  // ---- planes as sets of painted bits ----

  /** Bit j of byte k, counted from the left. */
  datatype Cell = Cell(k: int, j: int)

  predicate Bit(p: bytes, k: nat, j: nat)
    requires k < |p| && j < 8
  {
    BitAt(p[k], j)
  }

  /** q is p with the bits of s switched on, or off. */
  ghost predicate Painted(p: bytes, q: bytes, s: iset<Cell>, on: bool) {
    && |q| == |p|
    && forall k, j :: 0 <= k < |p| && 0 <= j < 8 ==>
      Bit(q, k, j) == if Cell(k, j) in s then on else Bit(p, k, j)
  }

  lemma PlotPaints(p: bytes, k: nat, j: nat, on: bool)
    requires k < |p| && j < 8
    ensures Painted(p, Plot(p, k, j, on), iset{Cell(k, j)}, on)
  {
    hide BitAt, SetBit;
    forall i | 0 <= i < 8 ensures BitAt(SetBit(p[k], j, on), i) == if i == j then on else BitAt(p[k], i) {
      SetBitAt(p[k], j, on, i);
    }
  }

  lemma PaintedThen(p: bytes, q: bytes, r: bytes, s: iset<Cell>, t: iset<Cell>, on: bool)
    requires Painted(p, q, s, on) && Painted(q, r, t, on)
    ensures Painted(p, r, s + t, on)
  {
    hide Bit;
  }

  lemma SamePaint(p: bytes, q: bytes, r: bytes, s: iset<Cell>, on: bool)
    requires Painted(p, q, s, on) && Painted(p, r, s, on)
    ensures q == r
  {
    hide BitAt;
    forall k | 0 <= k < |p| ensures q[k] == r[k] {
      forall j | 0 <= j < 8 ensures BitAt(q[k], j) == BitAt(r[k], j) {
        assert Bit(q, k, j) == Bit(r, k, j);
      }
      SameBits(q[k], r[k]);
    }
  }

  // ---- solid colours ----

  /** The bit operations of a solid colour; `red` is None when the red plane is not touched. */
  datatype Ink = Ink(bw: bool, red: Option<bool>)

  /** resolve_solid, given whether there is a red plane. */
  function Resolve(g: Sheet, hasRed: bool, color: int): Option<Ink> {
    if g.mask then
      if color == RED then Some(Ink(true, None))
      else if color == BLACK || color == WHITE then Some(Ink(false, None))
      else None
    else if color == BLACK then Some(Ink(false, if hasRed then Some(false) else None))
    else if color == WHITE || color == RED then Some(Ink(true, if hasRed then Some(color == RED) else None))
    else None
  }

  /** q is p with the cells of s inked. */
  ghost predicate Inked(p: Planes, q: Planes, s: iset<Cell>, ink: Ink) {
    && Painted(p.bw, q.bw, s, ink.bw)
    && (ink.red.None? ==> q.red == p.red)
    && (ink.red.Some? ==> p.red.Some? && q.red.Some? && Painted(p.red.value, q.red.value, s, ink.red.value))
  }

  lemma InkedThen(p: Planes, q: Planes, r: Planes, s: iset<Cell>, t: iset<Cell>, ink: Ink)
    requires Inked(p, q, s, ink) && Inked(q, r, t, ink)
    ensures Inked(p, r, s + t, ink)
  {
    hide Painted;
    PaintedThen(p.bw, q.bw, r.bw, s, t, ink.bw);
    if ink.red.Some? { PaintedThen(p.red.value, q.red.value, r.red.value, s, t, ink.red.value); }
  }

  lemma SameInk(p: Planes, q: Planes, r: Planes, s: iset<Cell>, ink: Ink)
    requires Inked(p, q, s, ink) && Inked(p, r, s, ink)
    ensures q == r
  {
    hide Painted;
    SamePaint(p.bw, q.bw, r.bw, s, ink.bw);
    if ink.red.Some? { SamePaint(p.red.value, q.red.value, r.red.value, s, ink.red.value); }
  }

  lemma InkedNothing(p: Planes, ink: Ink)
    requires ink.red.Some? ==> p.red.Some?
    ensures Inked(p, p, iset{}, ink)
  {
  }

  /** The cell of a logical pixel. */
  function CellOf(g: Sheet, x: int, y: int): Cell {
    Cell(MapY(g, x, y) * g.Stride() + MapX(g, x, y) / 8, MapX(g, x, y) % 8)
  }

  predicate Draws(g: Sheet, x: int, y: int, c: Cell) { Visible(g, x, y) && CellOf(g, x, y) == c }

  ghost function PixelCells(g: Sheet, x: int, y: int): iset<Cell> { iset c: Cell | Draws(g, x, y, c) }

  lemma PixelInks(g: Sheet, p: Planes, x: int, y: int, color: int, ink: Ink)
    requires Fits(g, p) && color != GRAY && color != PINK
    requires Resolve(g, p.red.Some?, color) == Some(ink)
    ensures Inked(p, DrawPixel(g, p, x, y, color), PixelCells(g, x, y), ink)
  {
    hide Painted, Plot;
    var s := PixelCells(g, x, y);
    if Visible(g, x, y) {
      var c := CellOf(g, x, y);
      assert s == iset{c};
      PlotPaints(p.bw, c.k, c.j, ink.bw);
      if ink.red.Some? { PlotPaints(p.red.value, c.k, c.j, ink.red.value); }
    } else {
      assert s == iset{};
      InkedNothing(p, ink);
    }
  }

  ghost predicate RowDraws(g: Sheet, x: int, n: nat, y: int, c: Cell) {
    exists xx :: x <= xx < x + n && Draws(g, xx, y, c)
  }

  ghost predicate RectDraws(g: Sheet, x: int, y: int, width: nat, n: nat, c: Cell) {
    exists xx, yy :: x <= xx < x + width && y <= yy < y + n && Draws(g, xx, yy, c)
  }

  ghost function RowCells(g: Sheet, x: int, n: nat, y: int): iset<Cell> { iset c: Cell | RowDraws(g, x, n, y, c) }

  ghost function RectCells(g: Sheet, x: int, y: int, width: nat, n: nat): iset<Cell> {
    iset c: Cell | RectDraws(g, x, y, width, n, c)
  }

  lemma {:induction false} RowInks(g: Sheet, p: Planes, x: int, n: nat, y: int, color: int, ink: Ink)
    requires Fits(g, p) && color != GRAY && color != PINK
    requires Resolve(g, p.red.Some?, color) == Some(ink)
    ensures Inked(p, RowLoop(g, p, x, n, y, color), RowCells(g, x, n, y), ink)
    ensures RowLoop(g, p, x, n, y, color).red.Some? == p.red.Some?
  {
    hide Draws, Inked, DrawPixel;
    if n == 0 {
      InkedNothing(p, ink);
      assert RowCells(g, x, n, y) == iset{};
    } else {
      var q := RowLoop(g, p, x, n - 1, y, color);
      var s := PixelCells(g, x + n - 1, y);
      RowInks(g, p, x, n - 1, y, color, ink);
      PixelInks(g, q, x + n - 1, y, color, ink);
      InkedThen(p, q, RowLoop(g, p, x, n, y, color), RowCells(g, x, n - 1, y), s, ink);
      RowCellsGrow(g, x, n, y);
      PixelKeepsRed(g, q, x + n - 1, y, color);
    }
  }

  lemma PixelKeepsRed(g: Sheet, p: Planes, x: int, y: int, color: int)
    requires Fits(g, p)
    ensures DrawPixel(g, p, x, y, color).red.Some? == p.red.Some?
  {
  }

  lemma RowCellsGrow(g: Sheet, x: int, n: nat, y: int)
    requires n > 0
    ensures RowCells(g, x, n, y) == RowCells(g, x, n - 1, y) + PixelCells(g, x + n - 1, y)
  {
    hide Draws;
  }

  lemma RectCellsGrow(g: Sheet, x: int, y: int, width: nat, n: nat)
    requires n > 0
    ensures RectCells(g, x, y, width, n) == RectCells(g, x, y, width, n - 1) + RowCells(g, x, width, y + n - 1)
  {
    hide Draws;
  }

  /** The pixel loop inks exactly the cells of the visible pixels of the rectangle. */
  lemma {:induction false} LoopInks(g: Sheet, p: Planes, x: int, y: int, width: nat, n: nat, color: int, ink: Ink)
    requires Fits(g, p) && color != GRAY && color != PINK
    requires Resolve(g, p.red.Some?, color) == Some(ink)
    ensures Inked(p, PixelLoop(g, p, x, y, width, n, color), RectCells(g, x, y, width, n), ink)
    ensures PixelLoop(g, p, x, y, width, n, color).red.Some? == p.red.Some?
  {
    hide Draws, Inked, RowLoop, RowCells;
    if n == 0 {
      InkedNothing(p, ink);
      assert RectCells(g, x, y, width, n) == iset{};
    } else {
      var q := PixelLoop(g, p, x, y, width, n - 1, color);
      LoopInks(g, p, x, y, width, n - 1, color, ink);
      RowInks(g, q, x, width, y + n - 1, color, ink);
      InkedThen(p, q, PixelLoop(g, p, x, y, width, n, color),
        RectCells(g, x, y, width, n - 1), RowCells(g, x, width, y + n - 1), ink);
      RectCellsGrow(g, x, y, width, n);
    }
  }

  /** A colour that stands for nothing leaves the planes alone. */
  lemma {:induction false} LoopOfNothing(g: Sheet, p: Planes, x: int, y: int, width: nat, n: nat, color: int)
    requires Fits(g, p) && color != GRAY && color != PINK && Resolve(g, p.red.Some?, color).None?
    ensures PixelLoop(g, p, x, y, width, n, color) == p
  {
    if n > 0 {
      LoopOfNothing(g, p, x, y, width, n - 1, color);
      RowOfNothing(g, p, x, width, y + n - 1, color);
    }
  }

  lemma {:induction false} RowOfNothing(g: Sheet, p: Planes, x: int, n: nat, y: int, color: int)
    requires Fits(g, p) && color != GRAY && color != PINK && Resolve(g, p.red.Some?, color).None?
    ensures RowLoop(g, p, x, n, y, color) == p
  {
    if n > 0 { RowOfNothing(g, p, x, n - 1, y, color); }
  }

  // ---- a rectangle is a rectangle under every rotation ----

  /** Inclusive bounds. */
  datatype Box = Box(x0: int, x1: int, y0: int, y1: int)

  function Clip(g: Sheet, x: int, y: int, width: int, height: int): Box {
    Box(Max(x, 0), Min(x + width - 1, g.LogicalWidth() - 1), Max(y, 0), Min(y + height - 1, g.LogicalHeight() - 1))
  }

  predicate Empty(b: Box) { b.x1 < b.x0 || b.y1 < b.y0 }

  /** The two corners of a logical box, mapped and sorted. */
  function Turned(g: Sheet, b: Box): Box {
    var ax, ay := MapX(g, b.x0, b.y0), MapY(g, b.x0, b.y0);
    var bx, cy := MapX(g, b.x1, b.y1), MapY(g, b.x1, b.y1);
    Box(if ax < bx then ax else bx, if ax < bx then bx else ax, if ay < cy then ay else cy, if ay < cy then cy else ay)
  }

  predicate InSpan(g: Sheet, row: int, x0: int, x1: int, c: Cell) {
    0 <= c.j < 8 && 0 <= c.k < g.size && x0 <= 8 * (c.k - row * g.Stride()) + c.j <= x1
  }

  /** The writable cells of columns x0 to x1 in one row. */
  ghost function SpanCells(g: Sheet, row: int, x0: int, x1: int): iset<Cell> {
    iset c: Cell | InSpan(g, row, x0, x1, c)
  }

  ghost predicate InBand(g: Sheet, y0: int, y1: int, x0: int, x1: int, c: Cell) {
    exists row :: y0 <= row < y1 && InSpan(g, row, x0, x1, c)
  }

  /** The same for rows y0 up to y1. */
  ghost function BandCells(g: Sheet, y0: int, y1: int, x0: int, x1: int): iset<Cell> {
    iset c: Cell | InBand(g, y0, y1, x0, x1, c)
  }

  lemma BandGrows(g: Sheet, y0: int, y1: int, x0: int, x1: int)
    requires y0 <= y1
    ensures BandCells(g, y0, y1 + 1, x0, x1) == BandCells(g, y0, y1, x0, x1) + SpanCells(g, y1, x0, x1)
  {
    hide InSpan;
  }

  lemma TurnedInside(g: Sheet, b: Box)
    requires g.rotation < 4 && !Empty(b)
    requires 0 <= b.x0 && b.x1 < g.LogicalWidth() && 0 <= b.y0 && b.y1 < g.LogicalHeight()
    ensures var t := Turned(g, b); 0 <= t.x0 <= t.x1 < g.width && 0 <= t.y0 <= t.y1 < g.height
  {
  }

  /** A logical point is in the box exactly when its image is in the turned box, and every
      physical point is an image. */
  lemma TurnedPoint(g: Sheet, b: Box, x: int, y: int)
    requires g.rotation < 4 && !Empty(b)
    ensures (b.x0 <= x <= b.x1 && b.y0 <= y <= b.y1) <==>
      (Turned(g, b).x0 <= MapX(g, x, y) <= Turned(g, b).x1 && Turned(g, b).y0 <= MapY(g, x, y) <= Turned(g, b).y1)
  {
  }

  function Unmap(g: Sheet, tx: int, ty: int): (int, int) {
    if g.rotation == 1 then (ty, g.width - 1 - tx)
    else if g.rotation == 2 then (g.width - 1 - tx, g.height - 1 - ty)
    else if g.rotation == 3 then (g.height - 1 - ty, tx)
    else (tx, ty)
  }

  lemma Unmapped(g: Sheet, tx: int, ty: int)
    requires g.rotation < 4
    ensures var (x, y) := Unmap(g, tx, ty); MapX(g, x, y) == tx && MapY(g, x, y) == ty
    ensures var (x, y) := Unmap(g, tx, ty);
      0 <= tx < g.width && 0 <= ty < g.height ==> 0 <= x < g.LogicalWidth() && 0 <= y < g.LogicalHeight()
  {
  }

  lemma ByteColumn(q: int, j: int)
    requires 0 <= j < 8
    ensures (8 * q + j) / 8 == q && (8 * q + j) % 8 == j
  {
  }

  lemma DrawnInBand(g: Sheet, x: int, y: int, width: nat, height: nat, c: Cell)
    requires g.rotation < 4 && !Empty(Clip(g, x, y, width, height)) && RectDraws(g, x, y, width, height, c)
    ensures var t := Turned(g, Clip(g, x, y, width, height)); InBand(g, t.y0, t.y1 + 1, t.x0, t.x1, c)
  {
    hide MapX, MapY, Turned;
    var xx, yy :| x <= xx < x + width && y <= yy < y + height && Draws(g, xx, yy, c);
    TurnedPoint(g, Clip(g, x, y, width, height), xx, yy);
    var t := Turned(g, Clip(g, x, y, width, height));
    assert InSpan(g, MapY(g, xx, yy), t.x0, t.x1, c);
  }

  lemma BandIsDrawn(g: Sheet, x: int, y: int, width: nat, height: nat, c: Cell)
    requires g.rotation < 4 && !Empty(Clip(g, x, y, width, height))
    requires var t := Turned(g, Clip(g, x, y, width, height)); InBand(g, t.y0, t.y1 + 1, t.x0, t.x1, c)
    ensures RectDraws(g, x, y, width, height, c)
  {
    hide MapX, MapY, Turned, Unmap;
    var b := Clip(g, x, y, width, height);
    var t := Turned(g, b);
    var row :| t.y0 <= row < t.y1 + 1 && InSpan(g, row, t.x0, t.x1, c);
    var tx := 8 * (c.k - row * g.Stride()) + c.j;
    ByteColumn(c.k - row * g.Stride(), c.j);
    TurnedInside(g, b);
    Unmapped(g, tx, row);
    var (xx, yy) := Unmap(g, tx, row);
    TurnedPoint(g, b, xx, yy);
    assert Draws(g, xx, yy, c);
  }

  /** The pixels of a rectangle that can be drawn are a band of physical rows. */
  lemma RectIsBand(g: Sheet, x: int, y: int, width: nat, height: nat)
    requires g.rotation < 4 && !Empty(Clip(g, x, y, width, height))
    ensures var t := Turned(g, Clip(g, x, y, width, height));
      RectCells(g, x, y, width, height) == BandCells(g, t.y0, t.y1 + 1, t.x0, t.x1)
  {
    hide MapX, MapY, Turned, RectDraws, InBand;
    var t := Turned(g, Clip(g, x, y, width, height));
    forall c: Cell ensures RectDraws(g, x, y, width, height, c) <==> InBand(g, t.y0, t.y1 + 1, t.x0, t.x1, c) {
      if RectDraws(g, x, y, width, height, c) { DrawnInBand(g, x, y, width, height, c); }
      if InBand(g, t.y0, t.y1 + 1, t.x0, t.x1, c) { BandIsDrawn(g, x, y, width, height, c); }
    }
  }

  lemma NothingDrawn(g: Sheet, x: int, y: int, width: nat, height: nat)
    requires Empty(Clip(g, x, y, width, height))
    ensures RectCells(g, x, y, width, height) == iset{}
  {
    hide MapX, MapY;
  }

  // ---- a span of bytes ----

  function Blend(b: byte, m: byte, on: bool): byte { if on then b | m else b & !m }

  /** Bytes lo to hi with every bit under the masks switched on, or off. */
  function Span(p: bytes, lo: int, hi: int, first: byte, last: byte, on: bool): (q: bytes)
    ensures |q| == |p|
  {
    seq(|p|, k requires 0 <= k < |p| =>
      if lo <= k <= hi then Blend(p[k], SpanMask(k, lo, hi, first, last), on) else p[k])
  }

  function SpanMask(k: int, lo: int, hi: int, first: byte, last: byte): byte {
    (if k == lo then first else 0xFF) & (if k == hi then last else 0xFF)
  }

  function FirstMask(col: nat): byte
    requires col < 8
  {
    0xFF >> col
  }

  function LastMask(col: nat): byte
    requires col < 8
  {
    0xFF << (7 - col)
  }

  lemma FirstMaskBits(col: nat, i: nat)
    requires col < 8 && i < 8
    ensures BitAt(FirstMask(col), i) == (i >= col)
  {
  }

  lemma LastMaskBits(col: nat, i: nat)
    requires col < 8 && i < 8
    ensures BitAt(LastMask(col), i) == (i <= col)
  {
  }

  lemma BlendBit(b: byte, m: byte, on: bool, i: nat)
    requires i < 8
    ensures BitAt(Blend(b, m, on), i) == if BitAt(m, i) then on else BitAt(b, i)
  {
    hide BitAt;
    OrBit(b, m, i);
    AndNotBit(b, m, i);
  }

  lemma MaskPair(m: byte, n: byte, i: nat, inM: bool, inN: bool)
    requires i < 8 && BitAt(m, i) == inM && BitAt(n, i) == inN
    ensures BitAt(m & n, i) == (inM && inN)
  {
    hide BitAt;
    AndBit(m, n, i);
  }

  lemma SpanMaskBit(k: int, lo: int, hi: int, a: nat, z: nat, i: nat)
    requires lo <= k <= hi && a < 8 && z < 8 && i < 8
    ensures BitAt(SpanMask(k, lo, hi, FirstMask(a), LastMask(z)), i) == ((k == lo ==> i >= a) && (k == hi ==> i <= z))
  {
    hide BitAt, FirstMask, LastMask;
    FirstMaskBits(a, i);
    LastMaskBits(z, i);
    AllBits(i);
    MaskPair(if k == lo then FirstMask(a) else 0xFF, if k == hi then LastMask(z) else 0xFF, i,
             k == lo ==> i >= a, k == hi ==> i <= z);
  }

  /** The last byte of a row's span that may be written, and the last column of it: where the
      plane ends first, the whole of its last byte is inside the rectangle. */
  function RowEnd(b1: int, avail: int): int { if b1 >= avail then avail - 1 else b1 }

  function RowEndColumn(b1: int, avail: int, z: nat): nat { if b1 >= avail then 7 else z }

  /** One clamped row of the fast path paints the row's part of the band, whether the span ends
      inside the plane or runs past its end. */
  lemma RowPaints(g: Sheet, p: bytes, row: nat, x0: nat, x1: nat, on: bool)
    requires x0 <= x1 && g.size <= |p| && row * g.Stride() < g.size
    ensures var base := row * g.Stride();
      var end := RowEnd(x1 / 8, g.size - base);
      Painted(p, Span(p, base + x0 / 8, base + end, FirstMask(x0 % 8),
                      LastMask(RowEndColumn(x1 / 8, g.size - base, x1 % 8)), on),
              SpanCells(g, row, x0, x1), on)
  {
    hide BitAt, FirstMask, LastMask, Blend, SpanMask;
    var base := row * g.Stride();
    var end, z := RowEnd(x1 / 8, g.size - base), RowEndColumn(x1 / 8, g.size - base, x1 % 8);
    var lo, hi := base + x0 / 8, base + end;
    var q := Span(p, lo, hi, FirstMask(x0 % 8), LastMask(z), on);
    forall k, j | 0 <= k < |p| && 0 <= j < 8
      ensures Bit(q, k, j) == if Cell(k, j) in SpanCells(g, row, x0, x1) then on else Bit(p, k, j)
    {
      SpanCellAt(g, row, x0, x1, k, j);
      if lo <= k <= hi {
        BlendBit(p[k], SpanMask(k, lo, hi, FirstMask(x0 % 8), LastMask(z)), on, j);
        SpanMaskBit(k, lo, hi, x0 % 8, z, j);
      }
    }
  }

  lemma SpanCellAt(g: Sheet, row: nat, x0: nat, x1: nat, k: nat, j: nat)
    requires x0 <= x1 && j < 8 && row * g.Stride() < g.size
    ensures var base := row * g.Stride();
      var lo, hi := base + x0 / 8, base + RowEnd(x1 / 8, g.size - base);
      InSpan(g, row, x0, x1, Cell(k, j)) <==>
        lo <= k <= hi && (k == lo ==> j >= x0 % 8) && (k == hi ==> j <= RowEndColumn(x1 / 8, g.size - base, x1 % 8))
  {
  }

  lemma BlendWhole(b: byte, m: byte, n: byte)
    ensures Blend(b, 0xFF, true) == 0xFF && Blend(b, 0xFF, false) == 0x00
    ensures m & 0xFF == m && 0xFF & m == m && (0xFF as byte) & 0xFF == 0xFF
  {
  }

  // ---- in place ----

  /** The active canvas and the render mode. A canvas without planes draws nothing. */
  class Drawing {
    var width: nat
    var height: nat
    var rotation: nat
    var bw: array?<byte>
    var red: array?<byte>
    var bufferSize: nat
    var mask: bool

    ghost predicate Valid()
      reads this
    {
      && rotation < 4
      && (bw != null ==> bufferSize <= bw.Length)
      && (red != null ==> bufferSize <= red.Length)
      && (bw != null ==> bw != red)
    }

    function Shape(): Sheet
      reads this
    {
      Sheet(width, height, rotation, mask, if bw == null then 0 else bufferSize)
    }

    ghost function Contents(): (p: Planes)
      requires Valid()
      reads this, bw, red
      ensures Fits(Shape(), p)
    {
      Planes(if bw == null then [] else bw[..], if red == null then None else Some(red[..]))
    }

    constructor (width: nat, height: nat, bw: array?<byte>, red: array?<byte>, bufferSize: nat)
      requires bw != null ==> bufferSize <= bw.Length && bw != red
      requires red != null ==> bufferSize <= red.Length
      ensures Valid() && Shape() == Sheet(width, height, 1, false, if bw == null then 0 else bufferSize)
      ensures this.bw == bw && this.red == red
    {
      this.width, this.height, this.bw, this.red, this.bufferSize := width, height, bw, red, bufferSize;
      rotation, mask := 1, false;
    }

    /** graphics_set_rotation: the remainder of C takes the sign of the dividend. */
    method SetRotation(r: int)
      requires Valid()
      modifies this`rotation
      ensures Valid() && rotation == r % 4
    {
      var rem := if r >= 0 then r % 4 else -((-r) % 4);
      if rem < 0 {
        rem := rem + 4;
      }
      rotation := rem;
    }

    method Put(plane: array<byte>, k: nat, j: nat, on: bool)
      requires k < plane.Length && j < 8
      modifies plane
      ensures plane[..] == Plot(old(plane[..]), k, j, on)
    {
      hide SetBit;
      plane[k] := SetBit(plane[k], j, on);
    }

    method Draw(x: int, y: int, color: int)
      requires Valid()
      modifies bw, red
      ensures Valid() && Contents() == DrawPixel(Shape(), old(Contents()), x, y, color)
    {
      hide Dot, MapX, MapY, Dithered, Visible;
      if bw == null {
        NoPlaneNoPixel(Shape(), x, y);
        return;
      }
      if !Visible(Shape(), x, y) {
        return;
      }
      var c := Dithered(color, x, y);
      var tx, ty := MapX(Shape(), x, y), MapY(Shape(), x, y);
      VisibleCell(Shape(), x, y);
      DrawCell(ty * (width / 8) + tx / 8, tx % 8, c);
    }

    method DrawCell(k: nat, j: nat, c: int)
      requires Valid() && bw != null && k < bufferSize && j < 8
      modifies bw, red
      ensures Valid() && Contents() == Dot(Shape(), old(Contents()), k, j, c)
    {
      hide Plot;
      if mask {
        if c == RED {
          Put(bw, k, j, true);
        } else if c == BLACK || c == WHITE {
          Put(bw, k, j, false);
        }
        return;
      }
      if c == BLACK {
        Put(bw, k, j, false);
      } else if c == WHITE || c == RED {
        Put(bw, k, j, true);
      } else {
        return;
      }
      if red != null {
        Put(red, k, j, c == RED);
      }
    }

    /** fill_span */
    method FillSpan(plane: array<byte>, base: nat, b0: nat, b1: nat, first: byte, last: byte, on: bool)
      requires b0 <= b1 && base + b1 < plane.Length
      modifies plane
      ensures plane[..] == Span(old(plane[..]), base + b0, base + b1, first, last, on)
    {
      hide Blend;
      BlendWhole(0, first, last);
      BlendWhole(0, last, first);
      if b0 == b1 {
        plane[base + b0] := Blend(plane[base + b0], first & last, on);
        return;
      }
      plane[base + b0] := Blend(plane[base + b0], first, on);
      plane[base + b1] := Blend(plane[base + b1], last, on);
      ghost var was := old(plane[..]);
      for k := b0 + 1 to b1
        invariant forall i :: 0 <= i < plane.Length && !(base + k <= i < base + b1) ==>
          plane[i] == Span(was, base + b0, base + b1, first, last, on)[i]
        invariant forall i :: base + k <= i < base + b1 ==> plane[i] == was[i]
      {
        BlendWhole(was[base + k], first, last);
        plane[base + k] := if on then 0xFF else 0x00;
      }
    }

    /** The checkerboards keep the per-pixel path. */
    method DrawPixels(x: int, y: int, w: nat, h: nat, color: int)
      requires Valid()
      modifies bw, red
      ensures Valid() && Contents() == PixelLoop(Shape(), old(Contents()), x, y, w, h, color)
    {
      hide DrawPixel;
      ghost var was := Contents();
      for n := 0 to h
        invariant Valid() && Contents() == PixelLoop(Shape(), was, x, y, w, n, color)
      {
        ghost var rows := Contents();
        for m := 0 to w
          invariant Valid() && Contents() == RowLoop(Shape(), rows, x, m, y + n, color)
        {
          Draw(x + m, y + n, color);
        }
      }
    }

    /** One physical row of a solid fill, clamped to the plane. */
    method FillRow(row: nat, px0: nat, px1: nat, ink: Ink)
      requires Valid() && bw != null && px0 <= px1
      requires row * (width / 8) < bufferSize && (ink.red.Some? ==> red != null)
      modifies bw, red
      ensures Valid() && Inked(old(Contents()), Contents(), SpanCells(Shape(), row, px0, px1), ink)
    {
      hide Painted, FirstMask, LastMask, SpanCells, Span;
      var base := row * (width / 8);
      var b0, b1 := px0 / 8, px1 / 8;
      var first, last := FirstMask(px0 % 8), LastMask(px1 % 8);
      var rowB1, rowLast := b1, last;
      var avail := bufferSize - base;
      if b1 >= avail {
        rowB1 := avail - 1;
        rowLast := 0xFF;
        LastMaskWhole();
      }
      RowPaints(Shape(), bw[..], row, px0, px1, ink.bw);
      if red != null && ink.red.Some? { RowPaints(Shape(), red[..], row, px0, px1, ink.red.value); }
      if rowB1 < b0 {
        SpanOfNothing(bw[..], base + b0, base + rowB1, first, rowLast, ink.bw);
        if red != null && ink.red.Some? {
          SpanOfNothing(red[..], base + b0, base + rowB1, first, rowLast, ink.red.value);
        }
        return;
      }
      FillSpan(bw, base, b0, rowB1, first, rowLast, ink.bw);
      if ink.red.Some? {
        FillSpan(red, base, b0, rowB1, first, rowLast, ink.red.value);
      }
    }

    method FillRows(px0: nat, px1: nat, py0: nat, py1: nat, ink: Ink)
      requires Valid() && bw != null && px0 <= px1 && py0 <= py1 && (ink.red.Some? ==> red != null)
      modifies bw, red
      ensures Valid() && Inked(old(Contents()), Contents(), BandCells(Shape(), py0, py1 + 1, px0, px1), ink)
    {
      hide Inked, SpanCells, BandCells;
      ghost var was, g := Contents(), Shape();
      InkedNothing(was, ink);
      BandOfNothing(g, py0, px0, px1);
      for row := py0 to py1 + 1
        invariant Valid() && Inked(was, Contents(), BandCells(g, py0, row, px0, px1), ink)
      {
        if row * (width / 8) >= bufferSize {
          BandEnds(g, py0, row, py1 + 1, px0, px1);
          return;
        }
        ghost var before := Contents();
        FillRow(row, px0, px1, ink);
        InkedThen(was, before, Contents(), BandCells(g, py0, row, px0, px1), SpanCells(g, row, px0, px1), ink);
        BandGrows(g, py0, row, px0, px1);
      }
    }

    /** graphics_fill_rect leaves exactly the planes the pixel loop would: for every rotation,
        mode, colour and rectangle, and for planes shorter than the canvas. */
    method FillRect(x: int, y: int, w: int, h: int, color: int)
      requires Valid()
      modifies bw, red
      ensures Valid() && Contents() == PixelLoop(Shape(), old(Contents()), x, y, Max(w, 0), Max(h, 0), color)
    {
      hide PixelLoop, Inked, Resolve, RectCells, BandCells, MapX, MapY;
      ghost var was, g := Contents(), Shape();
      if bw == null || w <= 0 || h <= 0 {
        NoPixels(g, was, x, y, Max(w, 0), Max(h, 0), color);
        return;
      }
      if color == GRAY || color == PINK {
        DrawPixels(x, y, w, h, color);
        return;
      }
      var solid := Resolve(Shape(), red != null, color);
      if solid.None? {
        LoopOfNothing(g, was, x, y, w, h, color);
        return;
      }
      var ink := solid.value;
      LoopInks(g, was, x, y, w, h, color, ink);
      var box := Clip(Shape(), x, y, w, h);
      if Empty(box) {
        NothingDrawn(g, x, y, w, h);
        ResolveRed(g, red != null, color);
        InkedNothing(was, ink);
        SameInk(was, Contents(), PixelLoop(g, was, x, y, w, h, color), iset{}, ink);
        return;
      }
      var t := Turned(Shape(), box);
      TurnedInside(g, box);
      ResolveRed(g, red != null, color);
      FillRows(t.x0, t.x1, t.y0, t.y1, ink);
      RectIsBand(g, x, y, w, h);
      SameInk(was, Contents(), PixelLoop(g, was, x, y, w, h, color), BandCells(g, t.y0, t.y1 + 1, t.x0, t.x1), ink);
    }
  }

  lemma LastMaskWhole()
    ensures LastMask(7) == 0xFF
  {
  }

  lemma SpanOfNothing(p: bytes, lo: int, hi: int, first: byte, last: byte, on: bool)
    requires hi < lo
    ensures Span(p, lo, hi, first, last, on) == p
  {
  }

  lemma BandOfNothing(g: Sheet, y0: int, x0: int, x1: int)
    ensures BandCells(g, y0, y0, x0, x1) == iset{}
  {
  }

  /** Rows only climb: past the end of the plane there is nothing left to fill. */
  lemma BandEnds(g: Sheet, y0: nat, row: nat, y1: nat, x0: nat, x1: nat)
    requires y0 <= row <= y1 && row * g.Stride() >= g.size
    ensures BandCells(g, y0, y1, x0, x1) == BandCells(g, y0, row, x0, x1)
  {
    forall c: Cell, r: int | row <= r < y1 ensures !InSpan(g, r, x0, x1, c) {
      MulMono(row, r, g.Stride());
    }
    hide InSpan;
  }

  lemma ResolveRed(g: Sheet, hasRed: bool, color: int)
    requires Resolve(g, hasRed, color).Some?
    ensures Resolve(g, hasRed, color).value.red.Some? ==> hasRed
  {
  }

  lemma NoPlaneNoPixel(g: Sheet, x: int, y: int)
    requires g.size == 0
    ensures !Visible(g, x, y)
  {
    if Visible(g, x, y) { VisibleCell(g, x, y); }
  }

  lemma {:induction false} NoPixels(g: Sheet, p: Planes, x: int, y: int, width: nat, n: nat, color: int)
    requires Fits(g, p) && (g.size == 0 || width == 0 || n == 0)
    ensures PixelLoop(g, p, x, y, width, n, color) == p
  {
    if n > 0 {
      NoPixels(g, p, x, y, width, n - 1, color);
      NoPixelsInRow(g, p, x, width, y + n - 1, color);
    }
  }

  lemma {:induction false} NoPixelsInRow(g: Sheet, p: Planes, x: int, n: nat, y: int, color: int)
    requires Fits(g, p) && (g.size == 0 || n == 0)
    ensures RowLoop(g, p, x, n, y, color) == p
  {
    if n > 0 {
      NoPixelsInRow(g, p, x, n - 1, y, color);
      NoPlaneNoPixel(g, x + n - 1, y);
    }
  }

  lemma VisibleCell(g: Sheet, x: int, y: int)
    requires Visible(g, x, y)
    ensures 0 <= MapY(g, x, y) * g.Stride() + MapX(g, x, y) / 8 < g.size && 0 <= MapX(g, x, y) % 8 < 8
  {
    MulMono(0, MapY(g, x, y), g.Stride());
  }
}
