/**
 * What one display update does to the controller's two planes: the whole plane, only the dirty
 * rows, or nothing, and when that leaves the RAM equal to the framebuffer.
 */
module PanelRam {
  import opened Bytes
  import opened Numbers
  import opened Raster

  const STREAM_REFRESH_INTERVAL := 500

  /** The stream flags of the display manager, the controller's B/W RAM, and what its red RAM is
      known to hold: a wake-up may or may not have lost it, and then puts zeros there. */
  datatype Panel = Panel(streaming: bool, count: nat, writeRed: bool, ram: bytes, red: Option<bytes>)

  /** A red plane without a red pixel. */
  function NoRed(g: Geometry): bytes { Repeat(0, g.Plane()) }

  /** What is known of the red RAM after a wake-up that does not write it. */
  function Woken(g: Geometry, red: Option<bytes>): Option<bytes> {
    if red == Some(NoRed(g)) then red else None
  }

  /** The next update is the one the maintenance cycle takes. */
  predicate Due(p: Panel) { p.streaming && (p.count + 1) % STREAM_REFRESH_INTERVAL == 0 }

  function ReplaceRows(g: Geometry, ram: bytes, buf: bytes, a: nat, b: nat): (r: bytes)
    requires |ram| == |buf| == g.Plane() && a <= b < g.height
    ensures |r| == g.Plane()
  {
    RowsInside(g, a, b);
    ram[..a * g.stride] + buf[a * g.stride..(b + 1) * g.stride] + ram[(b + 1) * g.stride..]
  }

  /** Rows y0..y1 of `ram` replaced by those of `buf`, the range clamped to the panel. */
  function RowsLoaded(g: Geometry, ram: bytes, buf: bytes, y0: int, y1: int): (r: bytes)
    requires |ram| == |buf| == g.Plane()
    ensures |r| == g.Plane()
  {
    var a, b := Max(y0, 0), Min(y1, g.height - 1);
    if b < a then ram else ReplaceRows(g, ram, buf, a, b)
  }

  lemma RowsInside(g: Geometry, a: nat, b: nat)
    requires a <= b < g.height
    ensures 0 <= a * g.stride <= (b + 1) * g.stride <= g.Plane()
  {
    MulMono(0, a, g.stride);
    MulMono(a, b + 1, g.stride);
    MulMono(b + 1, g.height, g.stride);
  }

  /** Exactly the rows y0..y1 change. */
  lemma RowsLoadedAt(g: Geometry, ram: bytes, buf: bytes, y0: int, y1: int, k: nat)
    requires g.Ok() && |ram| == |buf| == g.Plane() && k < g.Plane()
    ensures RowsLoaded(g, ram, buf, y0, y1)[k] == if y0 <= Row(g, k) <= y1 then buf[k] else ram[k]
  {
    var y, a, b := Row(g, k), Max(y0, 0), Min(y1, g.height - 1);
    RowOf(k, g.height, g.stride);
    if a <= b {
      RowsInside(g, a, b);
      if y < a { MulMono(y + 1, a, g.stride); }
      if y >= a { MulMono(a, y, g.stride); }
      if y <= b { MulMono(y + 1, b + 1, g.stride); }
      if y > b { MulMono(b + 1, y, g.stride); }
      MulNext(y, g.stride);
    }
  }

  /** One display_manager_update_partial_rows_nowait(y0, y1) with the rails kept on. */
  function UpdateRows(g: Geometry, p: Panel, fb: bytes, red: bytes, y0: int, y1: int): (r: Panel)
    requires |p.ram| == |fb| == g.Plane()
    ensures |r.ram| == g.Plane()
  {
    var n := p.count + 1;
    if Due(p) then
      Panel(false, n, false, fb, if p.writeRed then Some(NoRed(g)) else Woken(g, p.red))
    else if !p.streaming then
      Panel(true, n, p.writeRed, fb, if p.writeRed then Some(red) else Woken(g, p.red))
    else
      Panel(true, n, p.writeRed,
            if p.writeRed || (y0 <= 0 && y1 >= g.height - 1) then fb
            else if y1 < y0 then p.ram
            else RowsLoaded(g, p.ram, fb, y0, y1),
            if p.writeRed then Some(red) else p.red)
  }

  /** What one update is asked to show. */
  datatype Shot = Shot(fb: bytes, red: bytes, y0: int, y1: int)

  /** The first n of a row of updates. */
  function Updates(g: Geometry, p: Panel, us: seq<Shot>, n: nat): (r: Panel)
    requires |p.ram| == g.Plane() && n <= |us| && forall i :: 0 <= i < |us| ==> |us[i].fb| == g.Plane()
    ensures |r.ram| == g.Plane()
  {
    if n == 0 then p
    else UpdateRows(g, Updates(g, p, us, n - 1), us[n - 1].fb, us[n - 1].red, us[n - 1].y0, us[n - 1].y1)
  }

  /** Counting from the first one, the 500th update is the maintenance update, and the 1000th, and
      so on, whatever rows they were asked for; the stream goes on with the update after it. */
  lemma {:induction false} EveryFiveHundredth(g: Geometry, p: Panel, us: seq<Shot>, n: nat)
    requires |p.ram| == g.Plane() && n <= |us| && forall i :: 0 <= i < |us| ==> |us[i].fb| == g.Plane()
    requires p.count == 0 && !p.streaming
    ensures Updates(g, p, us, n).count == n
    ensures n > 0 ==> (Updates(g, p, us, n).streaming <==> n % 500 != 0)
    ensures Due(Updates(g, p, us, n)) <==> (n + 1) % 500 == 0
  {
    hide RowsLoaded, NoRed, Woken;
    if n > 0 {
      EveryFiveHundredth(g, p, us, n - 1);
      if (n + 1) % 500 == 0 { assert n % 500 == 499; }
    }
  }

  /** A streamed red plane reaches the red RAM, except with the maintenance update, which leaves it
      empty. */
  lemma StreamedRed(g: Geometry, p: Panel, fb: bytes, red: bytes, y0: int, y1: int)
    requires |p.ram| == |fb| == g.Plane() && p.writeRed
    ensures UpdateRows(g, p, fb, red, y0, y1).red == Some(if Due(p) then NoRed(g) else red)
  {
  }

  /** Once the stream is going, an update of the B/W plane that is not due for maintenance writes its
      own rows and no others. */
  lemma OtherRowsStay(g: Geometry, p: Panel, fb: bytes, red: bytes, y0: int, y1: int, k: nat)
    requires g.Ok() && |p.ram| == |fb| == g.Plane() && k < g.Plane()
    requires p.streaming && !p.writeRed && !Due(p)
    ensures UpdateRows(g, p, fb, red, y0, y1).ram[k] == if y0 <= k / g.stride <= y1 then fb[k] else p.ram[k]
  {
    hide RowsLoaded;
    RowsLoadedAt(g, p.ram, fb, y0, y1, k);
    RowOf(k, g.height, g.stride);
  }

  /** RAM and framebuffer agree outside the rows y0..y1. */
  predicate AgreeOutside(g: Geometry, ram: bytes, fb: bytes, y0: int, y1: int)
    requires g.Ok() && |ram| == |fb| == g.Plane()
  {
    forall k :: 0 <= k < g.Plane() && !(y0 <= Row(g, k) <= y1) ==> ram[k] == fb[k]
  }

  /** Pushing the rows that differ makes the B/W RAM the framebuffer; so does every update that
      rewrites the plane: the first one, the red one and the maintenance one. The red RAM follows
      as said above. */
  lemma UpdateMirrors(g: Geometry, p: Panel, fb: bytes, red: bytes, y0: int, y1: int)
    requires g.Ok() && |p.ram| == |fb| == g.Plane()
    requires AgreeOutside(g, p.ram, fb, y0, y1)
    ensures var r := UpdateRows(g, p, fb, red, y0, y1);
      && r.ram == fb
      && (p.writeRed ==> r.red == Some(if Due(p) then NoRed(g) else red))
      && (r.streaming && r.writeRed ==> r.red == Some(red))
  {
    forall k | 0 <= k < g.Plane()
      ensures RowsLoaded(g, p.ram, fb, y0, y1)[k] == fb[k]
    {
      hide RowsLoaded, Row;
      RowsLoadedAt(g, p.ram, fb, y0, y1, k);
    }
    assert RowsLoaded(g, p.ram, fb, y0, y1) == fb;
    if y1 < y0 {
      assert p.ram == fb;
    }
  }
}
