/**
 * What a pixel is, apart from how it is drawn: which corner a rotation starts in and which way it
 * goes, and which colour the planes show.
 */
module Pixels {
  import opened Bytes
  import opened Graphics
  import opened Numbers

  // ---- rotations ----

  datatype Point = Point(x: int, y: int)

  function Map(g: Sheet, p: Point): Point { Point(MapX(g, p.x, p.y), MapY(g, p.x, p.y)) }

  /** The corner of the panel the logical origin is in: top left, top right, bottom right, bottom
      left, as the sheet turns clockwise. */
  function Corner(g: Sheet): Point
    requires g.rotation < 4
  {
    [Point(0, 0), Point(g.width - 1, 0), Point(g.width - 1, g.height - 1), Point(0, g.height - 1)][g.rotation]
  }

  /** Right, down, left, up. */
  const WAYS: seq<Point> := [Point(1, 0), Point(0, 1), Point(-1, 0), Point(0, -1)]

  /** A sheet of rotation r starts in its r-th corner, and a step along x goes its r-th way, a step
      along y the way after. */
  lemma SheetTurns(g: Sheet, x: int, y: int)
    requires g.rotation < 4
    ensures var right, down := WAYS[g.rotation], WAYS[(g.rotation + 1) % 4];
      Map(g, Point(x, y)) ==
        Point(Corner(g).x + x * right.x + y * down.x, Corner(g).y + x * right.y + y * down.y)
  {
  }

  /** The sheet that is drawn on through a rotation of `g`. */
  function Through(g: Sheet, r: nat): Sheet {
    Sheet(g.(rotation := r).LogicalWidth(), g.(rotation := r).LogicalHeight(), 0, g.mask, g.size)
  }

  /** Turning twice is turning by the sum: two quarter turns are the half turn, four are none. */
  lemma TurnsAdd(g: Sheet, a: nat, b: nat, p: Point)
    requires a < 4 && b < 4
    ensures Map(g.(rotation := (a + b) % 4), p)
         == Map(g.(rotation := a), Map(Through(g, a).(rotation := b), p))
  {
  }

  /** On planes that hold the whole sheet every pixel of it can be drawn, and no other. */
  lemma SheetIsVisible(g: Sheet, x: int, y: int)
    requires g.rotation < 4 && g.width % 8 == 0 && g.Stride() * g.height <= g.size
    ensures Visible(g, x, y) <==> 0 <= x < g.LogicalWidth() && 0 <= y < g.LogicalHeight()
  {
    var m := Map(g, Point(x, y));
    if 0 <= x < g.LogicalWidth() && 0 <= y < g.LogicalHeight() {
      MulMono(m.y + 1, g.height, g.Stride());
      MulNext(m.y, g.Stride());
    }
  }

  /** Two pixels of the sheet are two bits of the plane. */
  lemma PixelsApart(g: Sheet, p: Point, q: Point)
    requires g.width % 8 == 0 && g.rotation < 4 && p != q
    requires Visible(g, p.x, p.y) && Visible(g, q.x, q.y)
    ensures CellOf(g, p.x, p.y) != CellOf(g, q.x, q.y)
  {
    var a, b := Map(g, p), Map(g, q);
    assert a != b;
    CellBack(g, a);
    CellBack(g, b);
  }

  lemma CellBack(g: Sheet, a: Point)
    requires g.width % 8 == 0 && 0 <= a.x < g.width && 0 <= a.y
    ensures var k := a.y * g.Stride() + a.x / 8;
      a == Point(8 * (k % g.Stride()) + a.x % 8, k / g.Stride())
  {
    DivMod(a.y * g.Stride() + a.x / 8, a.y, a.x / 8, g.Stride());
  }

  // ---- colours ----

  /** What the planes show at a bit: red over white over black. A red mask holds only red. */
  function Shown(g: Sheet, p: Planes, c: Cell): int
    requires 0 <= c.k < |p.bw| && 0 <= c.j < 8 && (p.red.Some? ==> c.k < |p.red.value|)
  {
    if g.mask then if Bit(p.bw, c.k, c.j) then RED else BLACK
    else if p.red.Some? && Bit(p.red.value, c.k, c.j) then RED
    else if Bit(p.bw, c.k, c.j) then WHITE
    else BLACK
  }

  /** The colour a pixel is meant to have: the grays are a chessboard whose origin is black, or
      red; a panel without red shows it as white, and a mask knows only red and not red. */
  function Meant(g: Sheet, hasRed: bool, x: int, y: int, color: int): int {
    var even := (x + y) % 2 == 0;
    var solid :=
      if color == GRAY then (if even then BLACK else WHITE)
      else if color == PINK then (if even then RED else WHITE)
      else color;
    if g.mask then (if solid == RED then RED else BLACK)
    else if solid == RED && !hasRed then WHITE
    else solid
  }

  predicate Known(color: int) { color in {BLACK, WHITE, RED, GRAY, PINK} }

  lemma DrawnIsDot(g: Sheet, p: Planes, x: int, y: int, color: int)
    requires Fits(g, p) && Visible(g, x, y)
    ensures var c := CellOf(g, x, y);
      && 0 <= c.k < g.size && 0 <= c.j < 8
      && DrawPixel(g, p, x, y, color) == Dot(g, p, c.k, c.j, Dithered(color, x, y))
  {
    hide Dot;
    CellInside(g, Point(x, y));
  }

  /** A drawn pixel shows its colour. */
  lemma DrawnPixelShows(g: Sheet, p: Planes, x: int, y: int, color: int)
    requires Fits(g, p) && Visible(g, x, y) && Known(color)
    ensures var q := DrawPixel(g, p, x, y, color);
      && |q.bw| == |p.bw| && q.red.Some? == p.red.Some? && (p.red.Some? ==> |q.red.value| == |p.red.value|)
      && Shown(g, q, CellOf(g, x, y)) == Meant(g, p.red.Some?, x, y, color)
  {
    DrawnIsDot(g, p, x, y, color);
    var c := CellOf(g, x, y);
    hide Bit, Plot, CellOf, Visible, DrawPixel;
    PlottedBit(p.bw, c.k, c.j, true);
    PlottedBit(p.bw, c.k, c.j, false);
    if p.red.Some? {
      PlottedBit(p.red.value, c.k, c.j, true);
      PlottedBit(p.red.value, c.k, c.j, false);
    }
  }

  lemma PlottedBit(p: bytes, k: nat, j: nat, on: bool)
    requires k < |p| && j < 8
    ensures |Plot(p, k, j, on)| == |p| && Bit(Plot(p, k, j, on), k, j) == on
    ensures forall i, m :: 0 <= i < |p| && 0 <= m < 8 && (i, m) != (k, j) ==>
      Bit(Plot(p, k, j, on), i, m) == Bit(p, i, m)
  {
    hide Bit;
    PlotPaints(p, k, j, on);
    forall i, m | 0 <= i < |p| && 0 <= m < 8 && (i, m) != (k, j)
      ensures Bit(Plot(p, k, j, on), i, m) == Bit(p, i, m)
    {
      assert Cell(i, m) !in iset{Cell(k, j)};
    }
    assert Cell(k, j) in iset{Cell(k, j)};
  }

  /** No other bit of either plane changes, and none at all for a pixel off the sheet or a colour
      that stands for nothing. */
  lemma OtherBitsStay(g: Sheet, p: Planes, x: int, y: int, color: int, c: Cell)
    requires Fits(g, p) && 0 <= c.k < |p.bw| && 0 <= c.j < 8
    requires p.red.Some? ==> |p.red.value| == |p.bw|
    requires c != CellOf(g, x, y) || !Visible(g, x, y) || !Known(color)
    ensures var q := DrawPixel(g, p, x, y, color);
      && |q.bw| == |p.bw| && Bit(q.bw, c.k, c.j) == Bit(p.bw, c.k, c.j)
      && q.red.Some? == p.red.Some?
      && (p.red.Some? ==>
            |q.red.value| == |p.red.value| && Bit(q.red.value, c.k, c.j) == Bit(p.red.value, c.k, c.j))
  {
    hide Bit, Plot;
    if Visible(g, x, y) && Known(color) {
      var d := CellOf(g, x, y);
      DrawnIsDot(g, p, x, y, color);
      hide CellOf, DrawPixel;
      PlottedBit(p.bw, d.k, d.j, true);
      PlottedBit(p.bw, d.k, d.j, false);
      if p.red.Some? {
        PlottedBit(p.red.value, d.k, d.j, true);
        PlottedBit(p.red.value, d.k, d.j, false);
      }
    }
  }

  /** So a pixel of the sheet shows what was drawn on it last. */
  lemma OtherPixelsStay(g: Sheet, p: Planes, a: Point, color: int, b: Point)
    requires Fits(g, p) && g.width % 8 == 0 && a != b && Visible(g, b.x, b.y)
    requires p.red.Some? ==> |p.red.value| == |p.bw|
    ensures var q, c := DrawPixel(g, p, a.x, a.y, color), CellOf(g, b.x, b.y);
      && |q.bw| == |p.bw| && (q.red.Some? ==> |q.red.value| == |p.bw|)
      && Shown(g, q, c) == Shown(g, p, c)
  {
    hide Bit, CellOf, DrawPixel;
    CellInside(g, b);
    if Visible(g, a.x, a.y) { PixelsApart(g, a, b); }
    OtherBitsStay(g, p, a.x, a.y, color, CellOf(g, b.x, b.y));
  }

  lemma CellInside(g: Sheet, b: Point)
    requires Visible(g, b.x, b.y)
    ensures var c := CellOf(g, b.x, b.y); 0 <= c.k < g.size && 0 <= c.j < 8
  {
    MulMono(0, MapY(g, b.x, b.y), g.Stride());
  }
}
