/**
 * The device end of the video stream: the byte-by-byte frame parser, the flush verdict with
 * its poison flag, and the invariant that ties the controller RAM to the framebuffer.
 */
module VideoDevice {
  import opened Bytes
  import opened Crc16
  import opened PackBits
  import opened PanelRam
  import opened Framebuffer

  const HDR1: byte := 0xAA
  const HDR2: byte := 0x55
  const FLUSH: byte := 0xBB
  const STOP1: byte := 0xCC
  const VIDEO_STOP2: byte := 0xDD
  const PHOTO_STOP2: byte := 0xDE

  const TYPE_RAW: byte := 0x00
  const TYPE_RLE: byte := 0x01
  const TYPE_DRLE: byte := 0x02
  const TYPE_RAW2: byte := 0x03
  const TYPE_RLE2: byte := 0x04
  const TYPE_DRLE2: byte := 0x05

  const CRC_FLAG: byte := 0x40
  const HALF_FLAG: byte := 0x20
  const TYPE_MASK: byte := 0x3F

  predicate IsDual(t: byte) { t == TYPE_RAW2 || t == TYPE_RLE2 || t == TYPE_DRLE2 }
  predicate IsRaw(t: byte) { t == TYPE_RAW || t == TYPE_RAW2 }
  predicate IsDelta(t: byte) { t == TYPE_DRLE || t == TYPE_DRLE2 }

  /** Types 0 to 2 are raw, compressed and compressed delta of one plane, 3 to 5 of two planes. */
  lemma TypeNumbers(t: byte)
    requires t <= TYPE_DRLE2
    ensures t <= 5 && IsDual(t) == (t >= 3) && IsRaw(t) == (t == 0 || t == 3) && IsDelta(t) == (t == 2 || t == 5)
  {
  }

  datatype State =
    | Idle | Hdr2Wait | TypeRd | LenHi | LenLo | Data | CrcHi | CrcLo | FlushWait | Stop2Wait

  datatype WireCrc = NoCrc | CrcOk | CrcBad

  /** The TELE:vs line sent back after every flush. */
  datatype Ack = Ack(frame: nat, dec: nat, wc: WireCrc, resync: bool, rows: nat)

  /** What the parser knows of the frame it is in. */
  datatype Frame = Frame(typ: byte, hasCrc: bool, half: bool, plen: nat, prx: nat,
                         rle: Rle, crc: word, crcRx: word) {
    function Layout(): Style { Style(IsDual(typ), IsDelta(typ), half) }
  }

  datatype Device = Device(st: State, f: Frame, c: Canvas, poisoned: bool, active: bool,
                           frames: nat, panel: Panel, acks: seq<Ack>) {
    predicate Ok() {
      && c.Ok() && c.g.Even()
      && |panel.ram| == c.g.Plane()
      && f.rle.Valid()
    }
  }

  // ---- one byte ----

  function Restarted(f: Frame): Frame { f.(prx := 0, rle := RLE_START, crc := INIT, crcRx := 0) }

  /** The decompressor after a payload byte; raw payloads bypass it. */
  function NextRle(f: Frame, b: byte): (r: Rle)
    requires f.rle.Valid()
    ensures r.Valid()
  {
    if IsRaw(f.typ) then f.rle else Feed(f.rle, b).0
  }

  /** The bytes a payload byte puts on the canvas. */
  function Yield(f: Frame, b: byte): bytes
    requires f.rle.Valid()
  {
    if IsRaw(f.typ) then [b] else Feed(f.rle, b).1
  }

  function AfterPayload(f: Frame): State {
    if f.prx < f.plen then Data else if f.hasCrc then CrcHi else FlushWait
  }

  /** A payload byte: into the CRC, then written or decompressed. */
  function OnPayload(d: Device, b: byte): (r: Device)
    requires d.Ok()
    ensures r.Ok() && r.c.g == d.c.g
  {
    var f := d.f.(prx := d.f.prx + 1, crc := NibbleUpdate(d.f.crc, b), rle := NextRle(d.f, b));
    d.(st := AfterPayload(f), f := f, c := WriteAll(d.c, f.Layout(), Yield(d.f, b)))
  }

  /** The rest of a pending run, as far as the frame has room for it. */
  function Drain(r: Rle, room: nat): Rle {
    if r.mode != RunRepeat || room == 0 then r
    else if r.count <= room then r.(mode := Ctrl, count := 0)
    else r.(count := r.count - room)
  }

  function FlushRun(d: Device): (r: Device)
    requires d.Ok()
    ensures r.Ok() && r.c.g == d.c.g
  {
    if IsRaw(d.f.typ) then d
    else
      var room := Max(MaxDec(d.c.g, d.f.Layout()) - d.c.dec, 0);
      d.(f := d.f.(rle := Drain(d.f.rle, room)),
         c := WriteAll(d.c, d.f.Layout(), Pending(d.f.rle)))
  }

  /** The verdict on a drained frame: show it or hold the last good one, and acknowledge. */
  function Judged(d: Device): (r: Device)
    requires d.Ok()
    ensures r.Ok() && r.c == d.c
  {
    var dual, delta := IsDual(d.f.typ), IsDelta(d.f.typ);
    var crcBad := d.f.hasCrc && d.f.crc != d.f.crcRx;
    var poisoned := crcBad || (delta && d.poisoned);
    var show := !crcBad && !poisoned;
    var panel :=
      if show then
        var p := d.panel.(writeRed := dual);
        if delta && !dual then UpdateRows(d.c.g, p, d.c.bw, d.c.RedPlane(), d.c.y0, d.c.y1)
        else UpdateRows(d.c.g, p, d.c.bw, d.c.RedPlane(), 0, INT_MAX)
      else d.panel;
    var rows :=
      if delta && !dual then (if d.c.y1 >= d.c.y0 then d.c.y1 - d.c.y0 + 1 else 0) else d.c.g.height;
    var wc := if d.f.hasCrc then (if crcBad then CrcBad else CrcOk) else NoCrc;
    d.(poisoned := poisoned, frames := d.frames + 1, panel := panel,
       acks := d.acks + [Ack(d.frames + 1, d.c.dec, wc, crcBad || poisoned, rows)])
  }

  /** vs_flush_frame */
  function Flush(d: Device): (r: Device)
    requires d.Ok()
    ensures r.Ok() && r.c.g == d.c.g
  {
    Judged(FlushRun(d))
  }

  /** A trailer byte as the high and as the low half of the CRC. */
  function HighHalf(b: byte): word { (b as word) << 8 }
  function WithLowHalf(w: word, b: byte): word { w | (b as word) }

  function OnType(d: Device, b: byte): Device {
    var typ := b & TYPE_MASK & !HALF_FLAG;
    d.(f := d.f.(hasCrc := b & CRC_FLAG != 0, half := b & HALF_FLAG != 0, typ := typ),
       st := if typ <= TYPE_DRLE2 then LenHi else Idle)
  }

  function LowLength(n: nat, b: byte): (r: nat)
    ensures r >= n
  {
    n + b as int
  }

  function OnLenLo(d: Device, b: byte): Device {
    var f := Restarted(d.f.(plen := LowLength(d.f.plen, b)));
    d.(f := f, c := Restart(d.c),
       st := if f.plen > 0 then Data else if f.hasCrc then CrcHi else FlushWait)
  }

  /** vs_process_byte. Once the stream is stopped, bytes go to the command line instead. */
  function Step(d: Device, b: byte): (r: Device)
    requires d.Ok()
    ensures r.Ok() && r.c.g == d.c.g
  {
    if !d.active then d
    else
      match d.st
      case Idle =>
        d.(st := if b == HDR1 then Hdr2Wait else if b == STOP1 then Stop2Wait else Idle)
      case Hdr2Wait => d.(st := if b == HDR2 then TypeRd else Idle)
      case TypeRd => OnType(d, b)
      case LenHi => d.(f := d.f.(plen := b as int * 256), st := LenLo)
      case LenLo => OnLenLo(d, b)
      case Data => OnPayload(d, b)
      case CrcHi => d.(f := d.f.(crcRx := HighHalf(b)), st := CrcLo)
      case CrcLo => d.(f := d.f.(crcRx := WithLowHalf(d.f.crcRx, b)), st := FlushWait)
      case FlushWait => (if b == FLUSH then Flush(d) else d).(st := Idle)
      case Stop2Wait =>
        if b == VIDEO_STOP2 || b == PHOTO_STOP2 then
          d.(st := Idle, active := false, frames := 0, panel := d.panel.(streaming := false, writeRed := false))
        else d.(st := Idle)
  }

  function Steps(d: Device, s: bytes): (r: Device)
    requires d.Ok()
    ensures r.Ok() && r.c.g == d.c.g
    decreases |s|
  {
    if s == [] then d else Step(Steps(d, s[..|s| - 1]), s[|s| - 1])
  }

  /** Between frames: bytes that start nothing leave no trace, a frame of an unknown type is not
      entered, and the stream ends with CC DD or CC DE and with nothing else. */
  lemma BetweenFrames(d: Device, a: byte, b: byte)
    requires d.Ok() && d.active && d.st == Idle
    ensures a != 0xAA && a != 0xCC ==> Step(d, a) == d
    ensures b != 0x55 ==> Step(Step(d, 0xAA), b) == d
    ensures b & 0x1F > 5 ==>
      var r := Step(Step(Step(d, 0xAA), 0x55), b); r == d.(f := r.f)
    ensures var r := Step(Step(d, 0xCC), b);
      && r.active == (b != 0xDD && b != 0xDE)
      && (r.active ==> r == d)
      && (!r.active ==> r == d.(active := false, frames := 0, panel := r.panel) && Step(r, a) == r
                        && r.panel == d.panel.(streaming := false, writeRed := false))
  {
    hide OnPayload, Flush, OnLenLo;
    MaskedType(b);
  }

  lemma MaskedType(b: byte)
    ensures b & TYPE_MASK & !HALF_FLAG == b & 0x1F
  {
  }

  // ---- the controller RAM follows the framebuffer ----

  predicate InFrame(st: State) { st == Data || st == CrcHi || st == CrcLo || st == FlushWait }

  /** A red plane that is being streamed is in the controller. */
  predicate RedAgrees(d: Device) {
    d.panel.streaming && d.panel.writeRed ==> d.panel.red == Some(d.c.RedPlane())
  }

  /** Between frames the controller RAM is the framebuffer, the red plane included while it is
      streamed; inside a single-plane delta the B/W planes differ at most in the rows marked
      dirty. While the stream is poisoned the panel holds the last good picture, and after the
      stream it may have lost its supply: nothing is claimed then. */
  predicate Mirror(d: Device)
    requires d.Ok()
  {
    !d.active || d.poisoned ||
    if InFrame(d.st) then
      && (IsDelta(d.f.typ) && !IsDual(d.f.typ) ==> DirtyCovers(d.c, d.panel.ram))
      && (!IsDual(d.f.typ) ==> RedAgrees(d))
    else d.panel.ram == d.c.bw && RedAgrees(d)
  }

  /** The one byte that breaks it: a frame abandoned at its flush byte has already changed the
      framebuffer, and nothing records that. */
  predicate Abandons(d: Device, b: byte) { d.active && d.st == FlushWait && b != FLUSH }

  lemma {:induction false} WriteAllMarks(c: Canvas, s: Style, out: bytes, ram: bytes)
    requires c.Takes(s) && |ram| == c.g.Plane() && s.delta && !s.dual && DirtyCovers(c, ram)
    ensures DirtyCovers(WriteAll(c, s, out), ram)
    decreases |out|
  {
    hide WriteByte, DirtyCovers;
    if out != [] {
      var n := |out| - 1;
      WriteAllMarks(c, s, out[..n], ram);
      DeltaMarks(WriteAll(c, s, out[..n]), s, out[n], ram);
    }
  }

  lemma PayloadMirrors(d: Device, b: byte)
    requires d.Ok() && d.active && d.st == Data && Mirror(d)
    ensures Mirror(OnPayload(d, b))
  {
    hide WriteAll, WriteByte, DirtyCovers, NibbleUpdate, NextRle, Yield;
    if !IsDual(d.f.typ) { WriteAllKeepsRed(d.c, d.f.Layout(), Yield(d.f, b)); }
    if IsDelta(d.f.typ) && !IsDual(d.f.typ) && !d.poisoned {
      WriteAllMarks(d.c, d.f.Layout(), Yield(d.f, b), d.panel.ram);
    }
  }

  lemma FlushMirrors(d: Device)
    requires d.Ok() && d.active && d.st == FlushWait && Mirror(d)
    ensures Flush(d).poisoned || (Flush(d).panel.ram == Flush(d).c.bw && RedAgrees(Flush(d)))
  {
    hide WriteAll, DirtyCovers, RowsLoaded, Drain, Pending;
    var e := FlushRun(d);
    if IsDelta(d.f.typ) && !IsDual(d.f.typ) && !d.poisoned {
      WriteAllMarks(d.c, d.f.Layout(), Pending(d.f.rle), d.panel.ram);
      CoveredUpdateMirrors(e.c, e.panel.(writeRed := false));
    }
    assert e.c.g.height <= INT_MAX;
  }

  lemma CoveredUpdateMirrors(c: Canvas, p: Panel)
    requires c.Ok() && |p.ram| == c.g.Plane() && DirtyCovers(c, p.ram)
    ensures UpdateRows(c.g, p, c.bw, c.RedPlane(), c.y0, c.y1).ram == c.bw
  {
    UpdateMirrors(c.g, p, c.bw, c.RedPlane(), c.y0, c.y1);
  }

  /** Every byte of every stream keeps the controller RAM in step, malformed frames, corrupt
      frames, skipped frames and maintenance refreshes included, except a byte that abandons
      a frame which has already changed a clean framebuffer. */
  lemma StepMirrors(d: Device, b: byte)
    requires d.Ok() && Mirror(d)
    ensures Mirror(Step(d, b)) <==>
      (Abandons(d, b) ==> d.poisoned || (d.panel.ram == d.c.bw && RedAgrees(d)))
  {
    hide WriteAll, DirtyCovers, OnPayload, Flush;
    if d.active {
      match d.st
      case Data => PayloadMirrors(d, b); PayloadState(d, b);
      case FlushWait => FlushMirrors(d);
      case LenLo => OpenMirrors(d, b);
      case _ =>
    }
  }

  lemma PayloadState(d: Device, b: byte)
    requires d.Ok()
    ensures OnPayload(d, b).st != Idle
  {
  }

  lemma OpenMirrors(d: Device, b: byte)
    requires d.Ok() && d.st == LenLo && Mirror(d)
    ensures Mirror(OnLenLo(d, b))
  {
  }

  /** No frame of the byte string is abandoned at its flush byte. */
  predicate AllFlushed(d: Device, s: bytes)
    requires d.Ok()
    decreases |s|
  {
    s == [] || (AllFlushed(d, s[..|s| - 1]) && !Abandons(Steps(d, s[..|s| - 1]), s[|s| - 1]))
  }

  /** So after any byte string whose frames all reach their flush byte, an unpoisoned stream
      between frames has the framebuffer in the controller RAM. */
  lemma {:induction false} StreamMirrors(d: Device, s: bytes)
    requires d.Ok() && Mirror(d) && AllFlushed(d, s)
    ensures Mirror(Steps(d, s))
    decreases |s|
  {
    hide Mirror, Step, Device.Ok;
    if s != [] {
      var n := |s| - 1;
      StreamMirrors(d, s[..n]);
      StepMirrors(Steps(d, s[..n]), s[n]);
    }
  }
}
