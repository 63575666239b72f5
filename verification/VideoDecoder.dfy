/**
 * The stream decoder of the command module in its own form: statics stepped byte by byte, the
 * framebuffers written and xored in place, frames pushed through the display manager. Every
 * method is tied to the step functions of VideoDevice.
 */
module VideoDecoder {
  import opened Bytes
  import opened Crc16
  import opened PackBits
  import opened Raster
  import opened PanelRam
  import opened Framebuffer
  import opened VideoDevice
  import opened DisplayManager

  /** Four bytes of a 2x2-doubled pixel block, xored in for a delta. */
  method PutBlock(fb: array<byte>, p0: nat, p1: nat, d0: byte, d1: byte, delta: bool)
    requires p0 + 1 < p1 && p1 + 1 < fb.Length
    modifies fb
    ensures fb[..] == old(fb[..])[p0 := Mix(delta, old(fb[p0]), d0)]
                                 [p0 + 1 := Mix(delta, old(fb[p0 + 1]), d1)]
                                 [p1 := Mix(delta, old(fb[p1]), d0)]
                                 [p1 + 1 := Mix(delta, old(fb[p1 + 1]), d1)]
  {
    if delta {
      fb[p0] := fb[p0] ^ d0;
      fb[p0 + 1] := fb[p0 + 1] ^ d1;
      fb[p1] := fb[p1] ^ d0;
      fb[p1 + 1] := fb[p1 + 1] ^ d1;
    } else {
      fb[p0] := d0;
      fb[p0 + 1] := d1;
      fb[p1] := d0;
      fb[p1 + 1] := d1;
    }
  }

  /** One decoded byte into a plane, doubled into four bytes of a half-resolution frame. */
  method PutInPlane(g: Geometry, half: bool, delta: bool, fb: array<byte>, off: nat, b: byte)
    requires g.Even() && fb.Length == g.Plane() && off < WirePlane(g, half)
    modifies fb
    ensures fb[..] == PutByte(g, half, delta, old(fb[..]), off, b)
  {
    hide Spread, HalfTarget;
    if !half {
      fb[off] := if delta then fb[off] ^ b else b;
    } else {
      PutDoubled(g, delta, fb, off, b);
    }
  }

  method PutDoubled(g: Geometry, delta: bool, fb: array<byte>, off: nat, b: byte)
    requires g.Even() && fb.Length == g.Plane() && off < WirePlane(g, true)
    modifies fb
    ensures fb[..] == PutByte(g, true, delta, old(fb[..]), off, b)
  {
    hide Doubled;
    HalfTargetInside(g, off);
    var hstride := g.stride / 2;
    var hy, hx := off / hstride, off % hstride;
    var p0 := 2 * hy * g.stride + 2 * hx;
    LowNibble(b);
    PutBlock(fb, p0, p0 + g.stride, Doubled(b >> 4), Doubled(b & 0x0F), delta);
  }

  lemma LowNibble(b: byte)
    ensures Spread(b, false) == Doubled(b >> 4) && Spread(b, true) == Doubled(b & 0x0F)
  {
  }

  class Decoder {
    const g: Geometry
    const display: Display
    const fbBw: array<byte>
    const fbRed: array?<byte>
    var state: State
    var frame: Frame
    var dec: nat
    var dirtyY0: int
    var dirtyY1: int
    var poisoned: bool
    var active: bool
    var frameCount: nat
    var telemetry: seq<Ack>

    ghost predicate Valid()
      reads this, display, display.drv, display.drv.port
    {
      Wired() && (active ==> display.keepDisplayOn)
    }

    ghost predicate Wired()
      reads this, display, display.drv, display.drv.port
    {
      && display.Valid() && display.g == g && display.bwBuffer == fbBw && display.redBuffer == fbRed
      && g.Fits() && g.Even()
      && (fbRed != null ==> fbRed != fbBw)
      && display.displayReady && display.BusHolds()
      && frame.rle.Valid()
    }

    ghost function Screen(): (c: Canvas)
      requires Valid()
      reads this, display, display.drv, display.drv.port, fbBw, fbRed
      ensures c.Ok() && c.g.Even()
    {
      Canvas(g, fbBw[..], if fbRed == null then None else Some(fbRed[..]), dec, dirtyY0, dirtyY1)
    }

    ghost function View(): (d: Device)
      requires Valid()
      reads this, display, display.drv, display.drv.port, fbBw, fbRed
      ensures d.Ok()
    {
      Device(state, frame, Screen(), poisoned, active, frameCount, display.State(), telemetry)
    }

    constructor (display: Display)
      requires display.Valid() && display.displayReady && display.BusHolds() && display.g.Fits() && display.g.Even()
      requires display.redBuffer != null ==> display.redBuffer != display.bwBuffer
      ensures Valid() && !active && this.display == display
    {
      g := display.g;
      this.display := display;
      fbBw, fbRed := display.bwBuffer, display.redBuffer;
      state := Idle;
      frame := Frame(0, false, false, 0, 0, RLE_START, 0, 0);
      dec, frameCount := 0, 0;
      dirtyY0, dirtyY1 := INT_MAX, -1;
      poisoned, active := false, false;
      telemetry := [];
    }

    method MarkDirty(row: int)
      requires Valid()
      modifies this`dirtyY0, this`dirtyY1
      ensures Valid() && Screen() == Framebuffer.MarkDirty(old(Screen()), row)
    {
      if row < dirtyY0 {
        dirtyY0 := row;
      }
      if row > dirtyY1 {
        dirtyY1 := row;
      }
    }

    method MarkByte(off: nat)
      requires Valid()
      modifies this`dirtyY0, this`dirtyY1
      ensures Valid() && Screen() == Framebuffer.MarkByte(old(Screen()), frame.half, off)
    {
      if frame.half {
        var hy := off / (g.stride / 2);
        MarkDirty(2 * hy);
        MarkDirty(2 * hy + 1);
      } else {
        MarkDirty(off / g.stride);
      }
    }

    /** vs_write_byte */
    method WriteByte(b: byte)
      requires Valid()
      modifies this`dec, this`dirtyY0, this`dirtyY1, fbBw, fbRed
      ensures Valid() && Screen() == Framebuffer.WriteByte(old(Screen()), frame.Layout(), b)
    {
      hide PutByte, WirePlane, Framebuffer.MarkByte, Ssd1675a.Driver.Valid, Display.BusHolds;
      var dual, delta := IsDual(frame.typ), IsDelta(frame.typ);
      var plane := WirePlane(g, frame.half);
      if dec >= (if dual then plane * 2 else plane) {
        return;
      }
      if dual && dec >= plane {
        if fbRed != null {
          if delta && b != 0 {
            MarkByte(dec - plane);
          }
          PutInPlane(g, frame.half, delta, fbRed, dec - plane, b);
        }
      } else {
        if delta && b != 0 {
          MarkByte(dec);
        }
        PutInPlane(g, frame.half, delta, fbBw, dec, b);
      }
      dec := dec + 1;
    }

    /** One byte of the pending run. */
    method RunByte()
      requires Valid() && frame.rle.mode == RunRepeat
      modifies this`frame, this`dec, this`dirtyY0, this`dirtyY1, fbBw, fbRed
      ensures Valid() && frame == old(frame).(rle := AfterRunByte(old(frame).rle))
      ensures Screen() == Framebuffer.WriteByte(old(Screen()), old(frame).Layout(), old(frame).rle.val)
    {
      hide Framebuffer.WriteByte;
      WriteByte(frame.rle.val);
      frame := frame.(rle := AfterRunByte(frame.rle));
    }

    /** The pending run, as long as it lasts: the first thing vs_rle_feed does. */
    method DrainBeforeInput()
      requires Valid()
      modifies this`frame, this`dec, this`dirtyY0, this`dirtyY1, fbBw, fbRed
      ensures Valid() && frame == old(frame).(rle := Drained(old(frame).rle))
      ensures Screen() == WriteAll(old(Screen()), old(frame).Layout(), Pending(old(frame).rle))
    {
      hide Framebuffer.WriteByte, WriteAll;
      ghost var c0, s, r0 := Screen(), frame.Layout(), frame.rle;
      ghost var k := 0;
      NothingWritten(c0, s);
      while frame.rle.mode == RunRepeat
        invariant Valid() && frame == old(frame).(rle := frame.rle)
        invariant k <= |Pending(r0)| && frame.rle == RunLeft(r0, k)
        invariant Screen() == WriteAll(c0, s, Pending(r0)[..k])
        decreases |Pending(r0)| - k
      {
        WriteAllNext(c0, s, Pending(r0), k);
        RunByte();
        k := k + 1;
      }
      assert Pending(r0)[..k] == Pending(r0);
    }

    /** The switch of vs_rle_feed, on the byte that was actually received. */
    method ConsumeInput(b: byte)
      requires Valid() && frame.rle.mode != RunRepeat
      modifies this`frame, this`dec, this`dirtyY0, this`dirtyY1, fbBw, fbRed
      ensures Valid() && frame == old(frame).(rle := Consume(old(frame).rle, b).0)
      ensures Screen() == WriteAll(old(Screen()), old(frame).Layout(), Consume(old(frame).rle, b).1)
    {
      hide Framebuffer.WriteByte, WriteAll, IsRun, Announced, Ssd1675a.Driver.Valid, Display.BusHolds;
      ghost var c0, s := Screen(), frame.Layout();
      WriteAllOne(c0, s, b);
      NothingWritten(c0, s);
      match frame.rle.mode {
        case Ctrl =>
          frame := frame.(rle := frame.rle.(count := Announced(b), mode := if IsRun(b) then RunFirst else Literal));
        case Literal =>
          WriteByte(b);
          frame := frame.(rle := frame.rle.(count := frame.rle.count - 1));
          if frame.rle.count == 0 {
            frame := frame.(rle := frame.rle.(mode := Ctrl));
          }
        case RunFirst =>
          frame := frame.(rle := frame.rle.(val := b));
          WriteByte(b);
          frame := frame.(rle := frame.rle.(count := frame.rle.count - 1));
          frame := frame.(rle := frame.rle.(mode := if frame.rle.count == 0 then Ctrl else RunRepeat));
      }
    }

    /** vs_rle_feed */
    method RleFeed(b: byte)
      requires Valid()
      modifies this`frame, this`dec, this`dirtyY0, this`dirtyY1, fbBw, fbRed
      ensures Valid() && frame == old(frame).(rle := Feed(old(frame).rle, b).0)
      ensures Screen() == WriteAll(old(Screen()), old(frame).Layout(), Feed(old(frame).rle, b).1)
    {
      hide WriteAll, Consume;
      WriteAllConcat(Screen(), frame.Layout(), Pending(frame.rle), Consume(Drained(frame.rle), b).1);
      DrainBeforeInput();
      ConsumeInput(b);
    }

    /** The trailing run at the end of a compressed stream, while the frame has room for it. */
    method DrainAtFlush()
      requires Valid()
      modifies this`frame, this`dec, this`dirtyY0, this`dirtyY1, fbBw, fbRed
      ensures Valid()
      ensures frame == old(frame).(rle := Drain(old(frame).rle, Max(MaxDec(g, old(frame).Layout()) - old(dec), 0)))
      ensures Screen() == WriteAll(old(Screen()), old(frame).Layout(), Pending(old(frame).rle))
    {
      hide Framebuffer.WriteByte, WriteAll, WirePlane;
      ghost var c0, s, r0 := Screen(), frame.Layout(), frame.rle;
      ghost var k := 0;
      NothingWritten(c0, s);
      var maxDec := MaxDec(g, frame.Layout());
      while frame.rle.mode == RunRepeat && dec < maxDec
        invariant Valid() && frame == old(frame).(rle := frame.rle)
        invariant k <= |Pending(r0)| && frame.rle == RunLeft(r0, k)
        invariant Screen() == WriteAll(c0, s, Pending(r0)[..k])
        invariant dec == old(dec) + k && (k > 0 ==> dec <= maxDec)
        decreases |Pending(r0)| - k
      {
        WriteAllNext(c0, s, Pending(r0), k);
        WriteByteCounts(Screen(), s, frame.rle.val);
        RunByte();
        k := k + 1;
      }
      WriteRest(c0, s, Pending(r0), k);
    }

    /** Where a two-plane frame leaves the controller's red RAM: it is the framebuffer's red plane
        if and only if the update was not due to the maintenance cycle, or that plane is empty. */
    ghost predicate RedFollows(due: bool)
      requires Valid()
      reads this, display, display.drv, display.drv.port, fbBw, if fbRed == null then {} else {fbRed}
    {
      display.Red() == Screen().RedPlane() <==> !due || Screen().RedPlane() == NoRed(g)
    }

    lemma RedIsSource()
      requires Valid()
      ensures display.RedSource() == Screen().RedPlane()
    {
    }

    /** Push the frame out: only the dirty rows of a single-plane delta, everything else whole. */
    method ShowFrame()
      requires Valid() && active
      modifies display, display.drv, display.drv.port
      ensures Valid()
      ensures var p := old(display.State()).(writeRed := IsDual(frame.typ));
        display.State() ==
          if IsDelta(frame.typ) && !IsDual(frame.typ) then
            UpdateRows(g, p, fbBw[..], Screen().RedPlane(), dirtyY0, dirtyY1)
          else UpdateRows(g, p, fbBw[..], Screen().RedPlane(), 0, INT_MAX)
      ensures IsDual(frame.typ) ==> RedFollows(old(Due(display.State())))
      ensures !IsDual(frame.typ) ==> display.Red() == NoRed(g) || display.Red() == old(display.Red())
    {
      hide NoRed, UpdateRows, Due, Display.BusHolds;
      ghost var p := display.State().(writeRed := IsDual(frame.typ));
      RedIsSource();
      if p.writeRed {
        StreamedRed(g, p, fbBw[..], Screen().RedPlane(), dirtyY0, dirtyY1);
        StreamedRed(g, p, fbBw[..], Screen().RedPlane(), 0, INT_MAX);
      }
      DueIgnores(display.State(), IsDual(frame.typ));
      var dual, delta := IsDual(frame.typ), IsDelta(frame.typ);
      display.drv.WaitBusy();
      display.keepDisplayOn := true;
      display.streamWriteRedPlane := dual;
      if delta && !dual {
        display.UpdatePartialNowaitRows(dirtyY0, dirtyY1);
      } else {
        display.UpdatePartialNowaitRows(0, INT_MAX);
      }
    }

    method FlushRunBytes()
      requires Valid()
      modifies this`frame, this`dec, this`dirtyY0, this`dirtyY1, fbBw, fbRed
      ensures Valid() && View() == FlushRun(old(View()))
    {
      hide WriteAll, Drain, WirePlane;
      if !IsRaw(frame.typ) {
        DrainAtFlush();
      }
    }

    /** One more frame, and the TELE:vs line about it. */
    method Acknowledge(crcBad: bool, resync: bool)
      requires Valid()
      modifies this`frameCount, this`telemetry
      ensures Valid() && frameCount == old(frameCount) + 1
      ensures telemetry == old(telemetry) + [
        Ack(frameCount, dec, if frame.hasCrc then (if crcBad then CrcBad else CrcOk) else NoCrc, resync,
            if IsDelta(frame.typ) && !IsDual(frame.typ) then
              (if dirtyY1 >= dirtyY0 then dirtyY1 - dirtyY0 + 1 else 0)
            else g.height)]
    {
      frameCount := frameCount + 1;
      var rows :=
        if IsDelta(frame.typ) && !IsDual(frame.typ) then (if dirtyY1 >= dirtyY0 then dirtyY1 - dirtyY0 + 1 else 0)
        else g.height;
      var verdict := if frame.hasCrc then (if crcBad then CrcBad else CrcOk) else NoCrc;
      telemetry := telemetry + [Ack(frameCount, dec, verdict, resync, rows)];
    }

    /** The verdict on a drained frame and what follows from it. */
    method JudgeFrame()
      requires Valid() && active
      modifies this`poisoned, this`frameCount, this`telemetry, display, display.drv, display.drv.port
      ensures Valid() && View() == Judged(old(View()))
      ensures !poisoned && IsDual(frame.typ) ==> RedFollows(old(Due(display.State())))
    {
      hide UpdateRows, Due, NoRed, Ssd1675a.Driver.Valid, Display.BusHolds;
      var dual, delta := IsDual(frame.typ), IsDelta(frame.typ);
      var crcBad := frame.hasCrc && frame.crc != frame.crcRx;
      if crcBad {
        poisoned := true;
      } else if !delta {
        poisoned := false;
      }
      var show := !crcBad && !poisoned;
      var wantResync := crcBad || poisoned;
      if show {
        ShowFrame();
      }
      Acknowledge(crcBad, wantResync);
    }

    /** vs_flush_frame, minus the clock readings and the legacy checksum it also reports. */
    method FlushFrame()
      requires Valid() && active
      modifies this, fbBw, fbRed, display, display.drv, display.drv.port
      ensures Valid() && View() == Flush(old(View()))
      ensures !poisoned && IsDual(frame.typ) ==> RedFollows(old(Due(display.State())))
    {
      hide FlushRun, Judged;
      FlushRunBytes();
      JudgeFrame();
    }

    /** vs_reset_frame */
    method ResetFrame()
      requires Valid()
      modifies this`frame, this`dec, this`dirtyY0, this`dirtyY1
      ensures Valid() && frame == Restarted(old(frame)) && Screen() == Restart(old(Screen()))
    {
      dec := 0;
      dirtyY0, dirtyY1 := INT_MAX, -1;
      frame := frame.(prx := 0, rle := RLE_START, crc := INIT, crcRx := 0);
    }

    /** A payload byte to the canvas, raw or through the decompressor. */
    method WritePayload(b: byte)
      requires Valid()
      modifies this`frame, this`dec, this`dirtyY0, this`dirtyY1, fbBw, fbRed
      ensures Valid() && frame == old(frame).(rle := NextRle(old(frame), b))
      ensures Screen() == WriteAll(old(Screen()), old(frame).Layout(), Yield(old(frame), b))
    {
      hide Framebuffer.WriteByte, WriteAll, Feed;
      WriteAllOne(Screen(), frame.Layout(), b);
      if IsRaw(frame.typ) {
        WriteByte(b);
      } else {
        RleFeed(b);
      }
    }

    method PayloadByte(b: byte)
      requires Valid() && state == Data
      modifies this`frame, this`state, this`dec, this`dirtyY0, this`dirtyY1, fbBw, fbRed
      ensures Valid() && View() == OnPayload(old(View()), b)
    {
      hide WriteAll, NextRle, Yield, NibbleUpdate, Ssd1675a.Driver.Valid, Display.BusHolds;
      WritePayload(b);
      CountByte(b);
    }

    /** A payload byte is counted and goes into the CRC; the last one moves the parser on. */
    method CountByte(b: byte)
      requires Valid() && state == Data
      modifies this`frame, this`state
      ensures Valid() && Screen() == old(Screen())
      ensures frame == old(frame).(prx := old(frame).prx + 1, crc := NibbleUpdate(old(frame).crc, b))
      ensures state == AfterPayload(frame)
    {
      hide NibbleUpdate;
      frame := frame.(prx := frame.prx + 1);
      frame := frame.(crc := NibbleUpdate(frame.crc, b));
      if frame.prx >= frame.plen {
        state := if frame.hasCrc then CrcHi else FlushWait;
      }
    }

    // The cases of vs_process_byte that only move the parser.

    method MarkerByte(b: byte)
      requires Valid() && active && (state == Idle || state == Hdr2Wait)
      modifies this`state
      ensures Valid() && View() == Step(old(View()), b)
    {
      hide Flush, OnPayload, OnType, OnLenLo;
      if state == Idle {
        if b == HDR1 {
          state := Hdr2Wait;
        } else if b == STOP1 {
          state := Stop2Wait;
        }
      } else {
        state := if b == HDR2 then TypeRd else Idle;
      }
    }

    method TypeByteRead(b: byte)
      requires Valid() && active && state == TypeRd
      modifies this`state, this`frame
      ensures Valid() && View() == Step(old(View()), b)
    {
      hide Flush, OnPayload, OnLenLo;
      frame := frame.(hasCrc := b & CRC_FLAG != 0, half := b & HALF_FLAG != 0, typ := b & TYPE_MASK & !HALF_FLAG);
      state := if frame.typ <= TYPE_DRLE2 then LenHi else Idle;
    }

    method LengthHighByte(b: byte)
      requires Valid() && active && state == LenHi
      modifies this`state, this`frame
      ensures Valid() && View() == Step(old(View()), b)
    {
      hide Flush, OnPayload, OnType, OnLenLo;
      frame := frame.(plen := b as int * 256);
      state := LenLo;
    }

    method LengthLowByte(b: byte)
      requires Valid() && active && state == LenLo
      modifies this`state, this`frame, this`dec, this`dirtyY0, this`dirtyY1
      ensures Valid() && View() == Step(old(View()), b)
    {
      hide Flush, OnPayload, OnType, LowLength;
      frame := frame.(plen := LowLength(frame.plen, b));
      ResetFrame();
      state := if frame.plen > 0 then Data else if frame.hasCrc then CrcHi else FlushWait;
    }

    method TrailerByte(b: byte)
      requires Valid() && active && (state == CrcHi || state == CrcLo)
      modifies this`state, this`frame
      ensures Valid() && View() == Step(old(View()), b)
    {
      hide Flush, OnPayload, OnType, OnLenLo, HighHalf, WithLowHalf;
      if state == CrcHi {
        frame := frame.(crcRx := HighHalf(b));
        state := CrcLo;
      } else {
        frame := frame.(crcRx := WithLowHalf(frame.crcRx, b));
        state := FlushWait;
      }
    }

    /** The part of vs_teardown for a running stream. */
    method EndStream(restoreScreensaver: bool)
      requires Valid() && active
      modifies this`state, this`active, this`frameCount, display, display.drv, display.drv.port
      ensures Valid() && state == Idle && !active && frameCount == 0
      ensures !display.keepDisplayOn && !display.streamingActive && !display.streamWriteRedPlane
      ensures display.streamPartialCount == old(display.streamPartialCount)
      ensures old(!display.screensaverEnabled || display.staticSaver) ==>
        display.drv.controllerSleeping && display.drv.ramUndefined
      ensures display.screensaverEnabled == (old(display.screensaverEnabled) || restoreScreensaver)
    {
      hide Ssd1675a.Driver.Valid, NoRed;
      state := Idle;
      active := false;
      frameCount := 0;
      display.SetKeepOn(false);
      if restoreScreensaver {
        display.EnableScreensaver(true);
      }
    }

    /** vs_teardown: a running stream ends with the display let go of; the saver comes back after a
        video and stays off after a photo. Without one only the red plane is no longer streamed. */
    method Teardown(restoreScreensaver: bool)
      requires Valid()
      modifies this, display, display.drv, display.drv.port
      ensures Valid()
      ensures old(active) ==>
        && !display.keepDisplayOn
        && View() == old(View()).(st := Idle, active := false, frames := 0,
          panel := old(display.State()).(streaming := false, writeRed := false,
                                         ram := display.State().ram, red := display.State().red))
      ensures old(active && (!display.screensaverEnabled || display.staticSaver)) ==>
        display.drv.controllerSleeping && display.drv.ramUndefined
      ensures !old(active) ==>
        && View() == old(View()).(panel := old(display.State()).(writeRed := false))
        && display.keepDisplayOn == old(display.keepDisplayOn)
      ensures display.screensaverEnabled == (old(display.screensaverEnabled) || (restoreScreensaver && old(active)))
    {
      var wasActive := active;
      display.drv.WaitBusy();
      display.streamWriteRedPlane := false;
      if wasActive {
        EndStream(restoreScreensaver);
      }
    }

    predicate Stops(b: byte)
      reads this
    {
      state == Stop2Wait && (b == VIDEO_STOP2 || b == PHOTO_STOP2)
    }

    /** vs_process_byte. Only a stop lets go of the display, and with it of what its RAM holds. */
    method ProcessByte(b: byte)
      requires Valid() && active
      modifies this, fbBw, fbRed, display, display.drv, display.drv.port
      ensures Valid()
      ensures !old(Stops(b)) ==> View() == Step(old(View()), b)
      ensures old(Stops(b)) ==>
        && View().(panel := View().panel.(ram := old(display.State()).ram, red := old(display.State()).red))
             == Step(old(View()), b)
        && !display.keepDisplayOn && (b == VIDEO_STOP2 ==> display.screensaverEnabled)
    {
      hide Flush, OnPayload, OnType, OnLenLo;
      match state {
        case Data =>
          PayloadByte(b);
        case FlushWait =>
          if b == FLUSH {
            FlushFrame();
          }
          state := Idle;
        case Stop2Wait =>
          if b == VIDEO_STOP2 || b == PHOTO_STOP2 {
            Teardown(b == VIDEO_STOP2);
          }
          state := Idle;
        case Idle | Hdr2Wait =>
          MarkerByte(b);
        case TypeRd =>
          TypeByteRead(b);
        case LenHi =>
          LengthHighByte(b);
        case LenLo =>
          LengthLowByte(b);
        case CrcHi | CrcLo =>
          TrailerByte(b);
      }
    }

    /** graphics_clear(GFX_WHITE) */
    method ClearWhite()
      requires Wired()
      modifies fbBw, fbRed
      ensures Wired() && fbBw[..] == Repeat(0xFF as byte, g.Plane())
    {
      Fill(fbBw, 0xFF);
      if fbRed != null {
        Fill(fbRed, 0x00);
      }
    }

    /** The panel full of white, and streaming off. */
    method PrimeDisplay()
      requires Valid()
      modifies fbBw, fbRed, display, display.drv, display.drv.port
      ensures Valid() && display.keepDisplayOn && !display.screensaverEnabled
      ensures display.State().ram == fbBw[..] == Repeat(0xFF as byte, g.Plane())
      ensures !display.streamWriteRedPlane
    {
      hide Repeat, RowsLoaded, Woken;
      display.EnableScreensaver(false);
      ClearWhite();
      display.SetKeepOn(true);
      display.streamWriteRedPlane := false;
      display.StopStreamingIfActive();
      display.UpdatePartial();
    }

    /** VSTREAM:start: a white framebuffer, the display primed with it, a parser at rest. */
    method StartStream()
      requires Valid()
      modifies this, fbBw, fbRed, display, display.drv, display.drv.port
      ensures Valid() && active && state == Idle && !poisoned && frameCount == 0
      ensures display.State().ram == fbBw[..] == Repeat(0xFF as byte, g.Plane())
      ensures Mirror(View()) && telemetry == old(telemetry) && !display.streamWriteRedPlane
    {
      hide UpdateRows, Repeat, Ssd1675a.Driver.Valid, Display.BusHolds;
      PrimeDisplay();
      state := Idle;
      frameCount := 0;
      ResetFrame();
      frame := frame.(hasCrc := false);
      poisoned := false;
      active := true;
    }
  }

  lemma DueIgnores(p: Panel, writeRed: bool)
    ensures Due(p.(writeRed := writeRed)) == Due(p)
  {
  }

  /** graphics_clear on one plane. */
  method Fill(fb: array<byte>, v: byte)
    modifies fb
    ensures fb[..] == Repeat(v, fb.Length)
  {
    for i := 0 to fb.Length
      invariant forall k :: 0 <= k < i ==> fb[k] == v
    {
      fb[i] := v;
    }
  }

  function AfterRunByte(r: Rle): Rle
    requires r.count > 0
  {
    r.(count := r.count - 1, mode := if r.count == 1 then Ctrl else r.mode)
  }

  /** The decompressor after k bytes of its pending run. */
  function RunLeft(r: Rle, k: nat): Rle
    requires k <= |Pending(r)|
  {
    if r.mode != RunRepeat then r
    else if k < r.count then r.(count := r.count - k) else r.(mode := Ctrl, count := 0)
  }

  lemma WriteAllNext(c: Canvas, s: Style, run: bytes, k: nat)
    requires c.Takes(s) && k < |run|
    ensures WriteAll(c, s, run[..k + 1]) == Framebuffer.WriteByte(WriteAll(c, s, run[..k]), s, run[k])
  {
    hide Framebuffer.WriteByte;
    assert run[..k + 1][..k] == run[..k];
  }

  lemma WriteRest(c: Canvas, s: Style, run: bytes, k: nat)
    requires c.Takes(s) && k <= |run|
    requires k == |run| || WriteAll(c, s, run[..k]).dec >= MaxDec(c.g, s)
    ensures WriteAll(c, s, run[..k]) == WriteAll(c, s, run)
  {
    hide WriteAll;
    assert run == run[..k] + run[k..];
    WriteAllConcat(c, s, run[..k], run[k..]);
    if k == |run| {
      NothingWritten(WriteAll(c, s, run[..k]), s);
    } else {
      WriteAllFull(WriteAll(c, s, run[..k]), s, run[k..]);
    }
  }

  lemma NothingWritten(c: Canvas, s: Style)
    requires c.Takes(s)
    ensures WriteAll(c, s, []) == c
  {
  }

  lemma WriteByteCounts(c: Canvas, s: Style, b: byte)
    requires c.Takes(s) && c.dec < MaxDec(c.g, s)
    ensures Framebuffer.WriteByte(c, s, b).dec == c.dec + 1
  {
    hide PutByte, WirePlane;
  }
}
