/**
 * The display manager's streaming path: when a frame goes out as a whole plane, as its dirty
 * rows, or through the maintenance cycle that runs every STREAM_REFRESH_INTERVAL frames.
 */
module DisplayManager {
  import opened Bytes
  import opened Raster
  import opened PanelRam
  import opened Framebuffer
  import opened Ssd1675a

  const SEQ_STREAM: byte := 0x04
  const SEQ_END: byte := 0x03
  const SEQ_BEGIN: byte := 0xC0
  const SEQ_FULL: byte := 0xC7

  class Display {
    const drv: Driver
    const g: Geometry
    const bwBuffer: array<byte>
    const redBuffer: array?<byte>
    const displayReady: bool
    var streamingActive: bool
    var streamPartialCount: nat
    var streamWriteRedPlane: bool
    var keepDisplayOn: bool
    var screensaverEnabled: bool
    var staticSaver: bool
    ghost var knownRed: Option<bytes>

    ghost predicate Valid()
      reads this, drv, drv.port
    {
      && drv.Valid() && drv.g == g
      && bwBuffer.Length == g.Plane()
      && (redBuffer != null ==> redBuffer.Length == g.Plane())
      && (BusHolds() && streamingActive ==> !drv.controllerSleeping)
      && (knownRed.Some? ==> Red() == knownRed.value)
    }

    /** The bus comes up whenever it is asked to. */
    ghost predicate BusHolds() {
      forall n :: drv.port.initAt(n)
    }

    /** The stream flags, the controller's B/W RAM and what is known of its red RAM. */
    ghost function State(): Panel
      reads this, drv.port
    {
      Panel(streamingActive, streamPartialCount, streamWriteRedPlane, drv.port.chip.bw, knownRed)
    }

    /** What is known of the red RAM when the stream has ended. */
    ghost function RedOnceStopped(): Option<bytes>
      reads this
    {
      if streamingActive && streamWriteRedPlane then Some(NoRed(g)) else knownRed
    }

    ghost function Red(): bytes
      reads this, drv.port
    {
      drv.port.chip.red
    }

    /** What a streamed red plane puts into the red RAM. */
    ghost function RedSource(): bytes
      requires drv.g == g && (redBuffer != null ==> redBuffer.Length == g.Plane())
      reads if redBuffer == null then {} else {redBuffer}
    {
      drv.Bits(redBuffer)
    }

    constructor (drv: Driver, bwBuffer: array<byte>, redBuffer: array?<byte>, ready: bool)
      requires drv.Valid()
      requires bwBuffer.Length == drv.g.Plane()
      requires redBuffer != null ==> redBuffer.Length == drv.g.Plane()
      ensures Valid() && this.drv == drv && this.bwBuffer == bwBuffer && this.redBuffer == redBuffer
      ensures displayReady == ready
      ensures !streamingActive && !streamWriteRedPlane && !keepDisplayOn && streamPartialCount == 0
    {
      this.drv := drv;
      this.g := drv.g;
      this.bwBuffer := bwBuffer;
      this.redBuffer := redBuffer;
      displayReady := ready;
      streamingActive, streamWriteRedPlane, keepDisplayOn := false, false, false;
      screensaverEnabled, staticSaver := false, false;
      streamPartialCount := 0;
      knownRed := None;
    }

    /** Remember what the red RAM should hold, if it does. */
    ghost method Note(red: Option<bytes>)
      modifies this`knownRed
      ensures knownRed == if red.Some? && Red() == red.value then red else None
    {
      knownRed := if red.Some? && Red() == red.value then red else None;
    }

    /** The B/W plane, and the red one as well while it is streamed. */
    method WritePartialStreamBuffers()
      requires Valid()
      modifies this`knownRed, drv`portReady, drv`ramUndefined, drv.port
      ensures Valid()
      ensures BusHolds() && !drv.controllerSleeping ==>
        && State() == old(State()).(ram := bwBuffer[..],
                                    red := if streamWriteRedPlane then Some(RedSource()) else old(knownRed))
        && Red() == if streamWriteRedPlane then RedSource() else old(Red())
    {
      drv.LoadPlane(false, bwBuffer);
      if streamWriteRedPlane {
        drv.LoadPlane(true, redBuffer);
      }
      Note(if streamWriteRedPlane then Some(RedSource()) else knownRed);
    }

    method WritePartialStreamRows(y0: int, y1: int)
      requires Valid()
      modifies this`knownRed, drv`portReady, drv`ramUndefined, drv.port
      ensures Valid()
      ensures BusHolds() && !drv.controllerSleeping ==>
        State() == old(State()).(
          ram := if streamWriteRedPlane || (y0 <= 0 && y1 >= g.height - 1) then bwBuffer[..]
                 else if y1 < y0 then old(State()).ram
                 else RowsLoaded(g, old(State()).ram, bwBuffer[..], y0, y1),
          red := if streamWriteRedPlane then Some(RedSource()) else old(knownRed))
      ensures BusHolds() && !drv.controllerSleeping ==>
        Red() == if streamWriteRedPlane then RedSource() else old(Red())
    {
      var last := g.height - 1;
      if streamWriteRedPlane || (y0 <= 0 && y1 >= last) {
        WritePartialStreamBuffers();
        return;
      }
      if y1 < y0 {
        return;
      }
      drv.LoadRows(false, bwBuffer, y0, y1);
      Note(knownRed);
    }

    /** Leaving the stream keeps the B/W RAM, and empties the red one if it was streamed. */
    method StopStreamingIfActive()
      requires Valid()
      modifies this`streamingActive, this`streamWriteRedPlane, this`knownRed
      modifies drv`portReady, drv`ramUndefined, drv.port
      ensures Valid() && !streamingActive && !streamWriteRedPlane
      ensures BusHolds() ==>
        && State() == old(State()).(streaming := false, writeRed := false,
                                    red := old(RedOnceStopped()))
        && Red() == if old(streamingActive && streamWriteRedPlane) then NoRed(g) else old(Red())
    {
      ghost var clears := streamingActive && streamWriteRedPlane;
      if streamingActive {
        drv.WaitBusy();
        if streamWriteRedPlane {
          drv.LoadPlane(true, null);
        }
        drv.Refresh(SEQ_END, true);
        streamingActive := false;
      }
      streamWriteRedPlane := false;
      Note(if clears then Some(NoRed(g)) else knownRed);
    }

    /** Wake the controller and give it the whole plane, then refresh or start streaming. */
    method WakeAndWrite(sequence: byte)
      requires Valid() && !streamingActive
      modifies this`knownRed, drv, drv.port
      ensures Valid()
      ensures BusHolds() ==>
        && !drv.controllerSleeping
        && State() == old(State()).(ram := bwBuffer[..],
                                    red := if streamWriteRedPlane then Some(RedSource()) else Woken(g, old(knownRed)))
        && if streamWriteRedPlane then Red() == RedSource() else Red() == NoRed(g) || Red() == old(Red())
    {
      ghost var was := knownRed;
      var _ := drv.InitPartial();
      Note(Woken(g, was));
      WritePartialStreamBuffers();
      drv.Refresh(sequence, true);
    }

    /** Out of the stream and through one whole refresh: the maintenance update, and every one
        without the rails. */
    method RefreshFully()
      requires Valid()
      modifies this`streamingActive, this`streamWriteRedPlane, this`knownRed, drv, drv.port
      ensures Valid() && !streamingActive && !streamWriteRedPlane
      ensures BusHolds() ==>
        && !drv.controllerSleeping
        && State() == old(State()).(streaming := false, writeRed := false, ram := bwBuffer[..],
                                    red := if old(streamingActive && streamWriteRedPlane) then Some(NoRed(g))
                                           else Woken(g, old(knownRed)))
        && (Red() == NoRed(g) || Red() == old(Red()))
    {
      hide NoRed;
      StopStreamingIfActive();
      WakeAndWrite(SEQ_FULL);
    }

    predicate ShouldPowerDownAfterUpdate()
      reads this
    {
      !keepDisplayOn && (!screensaverEnabled || staticSaver)
    }

    method PowerDownAfterIdleUpdate()
      requires Valid() && !streamingActive
      modifies this`knownRed, drv, drv.port
      ensures Valid()
      ensures if ShouldPowerDownAfterUpdate() then drv.controllerSleeping && drv.ramUndefined
              else
                && drv.controllerSleeping == old(drv.controllerSleeping)
                && State() == old(State()) && Red() == old(Red())
    {
      if ShouldPowerDownAfterUpdate() {
        drv.Sleep();
        drv.PowerOff();
        knownRed := None;
      }
    }

    /** Letting go of the rails ends the stream. */
    method SetKeepOn(enable: bool)
      requires Valid()
      modifies this, drv, drv.port
      ensures Valid() && keepDisplayOn == enable && streamPartialCount == old(streamPartialCount)
      ensures screensaverEnabled == old(screensaverEnabled) && staticSaver == old(staticSaver)
      ensures enable ==> State() == old(State()) && Red() == old(Red())
      ensures !enable ==> !streamingActive && !streamWriteRedPlane
      ensures !enable && (staticSaver || !screensaverEnabled) ==> drv.controllerSleeping && drv.ramUndefined
      ensures !enable && !staticSaver && screensaverEnabled && BusHolds() ==>
        State() == old(State()).(streaming := false, writeRed := false,
                                 red := old(RedOnceStopped()))
    {
      if !enable {
        StopStreamingIfActive();
      }
      keepDisplayOn := enable;
      if !enable {
        PowerDownAfterIdleUpdate();
      }
    }

    /** The saver itself draws in a thread of its own; turning it off lets go of the rails. */
    method EnableScreensaver(enable: bool)
      requires Valid()
      modifies this, drv, drv.port
      ensures Valid() && screensaverEnabled == enable && staticSaver == old(staticSaver)
      ensures keepDisplayOn == (old(keepDisplayOn) && enable)
      ensures enable || !old(keepDisplayOn) ==>
        unchanged(this`streamingActive, this`streamPartialCount, this`streamWriteRedPlane, this`knownRed, drv, drv.port)
    {
      screensaverEnabled := enable;
      if !enable && keepDisplayOn {
        SetKeepOn(false);
      }
    }

    /** The update has been shown and the display put away: out of the stream, and with the
        supply cut unless something else is to be shown soon. */
    ghost predicate PutAway()
      reads this, drv, drv.port, bwBuffer
    {
      && !streamingActive && !streamWriteRedPlane
      && if staticSaver || !screensaverEnabled then drv.controllerSleeping && drv.ramUndefined
         else BusHolds() ==> !drv.controllerSleeping && drv.port.chip.bw == bwBuffer[..]
    }

    /** The flags after an update that was to give `p`; with a bus that holds, all of it. */
    ghost predicate Updated(p: Panel)
      reads this, drv, drv.port
    {
      && State() == p.(ram := State().ram, red := State().red)
      && (BusHolds() ==> State() == p)
    }

    /** display_manager_update_partial_rows_nowait: an update of the stream with the rails kept
        on, a blocking one without. Refreshes only read the RAM. */
    method UpdatePartialNowaitRows(y0: int, y1: int)
      requires Valid()
      modifies this`streamingActive, this`streamPartialCount, this`streamWriteRedPlane, this`knownRed, drv, drv.port
      ensures Valid()
      ensures !displayReady ==> State() == old(State()) && Red() == old(Red())
      ensures displayReady && keepDisplayOn ==>
        Updated(UpdateRows(g, old(State()), bwBuffer[..], RedSource(), y0, y1))
      ensures displayReady && keepDisplayOn && BusHolds() && !old(streamWriteRedPlane) ==>
        Red() == NoRed(g) || Red() == old(Red())
      ensures displayReady && !keepDisplayOn ==> PutAway() && streamPartialCount == old(streamPartialCount)
    {
      hide Woken, NoRed, RowsLoaded;
      if !displayReady {
        return;
      }
      if !keepDisplayOn {
        UpdatePartial();
        return;
      }
      streamPartialCount := streamPartialCount + 1;
      if streamingActive && streamPartialCount % STREAM_REFRESH_INTERVAL == 0 {
        RefreshFully();
        return;
      }
      if !streamingActive {
        WakeAndWrite(SEQ_BEGIN);
        streamingActive := true;
      } else {
        WritePartialStreamRows(y0, y1);
      }
      drv.Refresh(SEQ_STREAM, false);
    }

    /** display_manager_update_partial: the whole plane every time. */
    method UpdatePartial()
      requires Valid()
      modifies this`streamingActive, this`streamPartialCount, this`streamWriteRedPlane, this`knownRed, drv, drv.port
      ensures Valid()
      ensures !displayReady ==> State() == old(State()) && Red() == old(Red())
      ensures displayReady && keepDisplayOn ==>
        && Updated(UpdateRows(g, old(State()), bwBuffer[..], RedSource(), 0, INT_MAX))
        && (BusHolds() ==> State().ram == bwBuffer[..])
      ensures displayReady && !keepDisplayOn ==> PutAway() && streamPartialCount == old(streamPartialCount)
    {
      hide Woken, NoRed, RowsLoaded;
      if !displayReady {
        return;
      }
      if keepDisplayOn {
        streamPartialCount := streamPartialCount + 1;
        if streamingActive && streamPartialCount % STREAM_REFRESH_INTERVAL == 0 {
          RefreshFully();
          return;
        }
        if !streamingActive {
          WakeAndWrite(SEQ_BEGIN);
          streamingActive := true;
        } else {
          WritePartialStreamBuffers();
        }
        drv.Refresh(SEQ_STREAM, true);
      } else {
        RefreshFully();
        PowerDownAfterIdleUpdate();
      }
    }
  }
}
