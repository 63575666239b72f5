/**
 * What the last byte of a packet decides. A packet whose flush byte is wrong is dropped with its
 * decoded bytes already on the framebuffer; this is exactly when that does no harm.
 */
module VideoFlushByte {
  import opened Bytes
  import opened Crc16
  import opened Framebuffer
  import opened Raster
  import opened VideoDevice
  import opened VideoPacket

  /** A decoded string changes nothing of the plane it is laid on: a delta because it is zero, a
      keyframe because the picture is there already. */
  predicate NoTrace(g: Geometry, half: bool, delta: bool, p: bytes, out: bytes)
    requires g.Ok()
  {
    if delta then forall i :: 0 <= i < |out| ==> out[i] == 0
    else forall k :: 0 <= k < |p| && Source(g, half, k) < |out| ==> p[k] == Ink(g, half, k, out[Source(g, half, k)])
  }

  lemma XorChanges(a: byte, d: byte)
    ensures a ^ d == a <==> d == 0
  {
  }

  lemma SpreadOfZero(b: byte)
    ensures (Spread(b, false) == 0 && Spread(b, true) == 0) <==> b == 0
  {
    DoubledIsBits(b & 0x0F);
    DoubledIsBits(b >> 4);
    hide Doubled;
  }

  /** A nonzero delta byte changes one of the plane bytes it is doubled into. */
  lemma DeltaByteShows(g: Geometry, half: bool, p: bytes, out: bytes, i: nat)
    requires g.Ok() && (half ==> g.Even()) && |p| == g.Plane()
    requires i < |out| <= WirePlane(g, half) && Paint(g, half, true, p, out) == p
    ensures out[i] == 0
  {
    hide Spread, HalfSource, HalfTarget, Col;
    if half {
      HalfTargetInside(g, i);
      var a := HalfTarget(g, i);
      HalfSourceTargets(g, a, i);
      HalfSourceTargets(g, a + 1, i);
      assert Paint(g, half, true, p, out)[a] == p[a] ^ Spread(out[i], false);
      assert Paint(g, half, true, p, out)[a + 1] == p[a + 1] ^ Spread(out[i], true);
      XorChanges(p[a], Spread(out[i], false));
      XorChanges(p[a + 1], Spread(out[i], true));
      SpreadOfZero(out[i]);
    } else {
      assert Paint(g, half, true, p, out)[i] == p[i] ^ out[i];
      XorChanges(p[i], out[i]);
    }
  }

  lemma PaintKeeps(g: Geometry, half: bool, delta: bool, p: bytes, out: bytes)
    requires g.Ok() && (half ==> g.Even()) && |p| == g.Plane() && |out| <= WirePlane(g, half)
    ensures Paint(g, half, delta, p, out) == p <==> NoTrace(g, half, delta, p, out)
  {
    hide Spread, HalfSource, Col;
    var q := Paint(g, half, delta, p, out);
    if delta {
      if q == p {
        forall i | 0 <= i < |out| ensures out[i] == 0 { DeltaByteShows(g, half, p, out, i); }
      }
      if NoTrace(g, half, delta, p, out) {
        forall k | 0 <= k < |p| ensures q[k] == p[k] { ZeroKeeps(p[k]); }
      }
    } else if q == p {
      forall k | 0 <= k < |p| && Source(g, half, k) < |out|
        ensures p[k] == Ink(g, half, k, out[Source(g, half, k)])
      {
        assert q[k] == p[k];
      }
    }
  }

  /** The bytes a payload has put on either plane before the flush byte; a run that is still
      pending waits for the flush. */
  function OnPlane(g: Geometry, typ: byte, half: bool, w: bytes): (r: bytes)
    ensures |r| <= WirePlane(g, half)
  {
    FirstPart(WirePlane(g, half), DecodedSoFar(typ, w))
  }

  function OnRed(g: Geometry, typ: byte, half: bool, w: bytes): (r: bytes)
    ensures |r| <= WirePlane(g, half)
  {
    if IsDual(typ) then SecondPart(WirePlane(g, half), DecodedSoFar(typ, w)) else []
  }

  /** The payload changes nothing of the black-and-white plane, or of the red one. */
  predicate NoTraceBw(d: Device, typ: byte, half: bool, w: bytes)
    requires d.Ok()
  {
    NoTrace(d.c.g, half, IsDelta(typ), d.c.bw, OnPlane(d.c.g, typ, half, w))
  }

  predicate NoTraceRed(d: Device, typ: byte, half: bool, w: bytes)
    requires d.Ok()
  {
    d.c.red.Some? ==> NoTrace(d.c.g, half, IsDelta(typ), d.c.red.value, OnRed(d.c.g, typ, half, w))
  }

  /** The planes once the payload is in. */
  lemma LoadedPlanes(d: Device, typ: byte, half: bool, w: bytes, trailer: Option<word>)
    requires d.Ok() && typ <= TYPE_DRLE2
    ensures var c := Loaded(Opened(d, typ, half, trailer.Some?, |w|), w, trailer).c;
      && c.bw == Paint(d.c.g, half, IsDelta(typ), d.c.bw, OnPlane(d.c.g, typ, half, w))
      && c.red == if d.c.red.None? then None
                  else Some(Paint(d.c.g, half, IsDelta(typ), d.c.red.value, OnRed(d.c.g, typ, half, w)))
  {
    hide DecodedSoFar, Paint, WriteAll, WirePlane, RleSoFar, Run;
    var o := Opened(d, typ, half, trailer.Some?, |w|);
    WriteAllLays(o.c, o.f.Layout(), DecodedSoFar(typ, w));
    if d.c.red.Some? && !IsDual(typ) { PaintNothing(d.c.g, half, IsDelta(typ), d.c.red.value); }
  }

  lemma LoadedCanvas(d: Device, typ: byte, half: bool, w: bytes, trailer: Option<word>)
    requires d.Ok() && typ <= TYPE_DRLE2
    ensures var c := Loaded(Opened(d, typ, half, trailer.Some?, |w|), w, trailer).c;
      && (c.bw == d.c.bw <==> NoTraceBw(d, typ, half, w))
      && (c.red == d.c.red <==> NoTraceRed(d, typ, half, w)) && c.red.Some? == d.c.red.Some?
  {
    hide DecodedSoFar, Paint, NoTrace, OnPlane, OnRed, Loaded, Opened, WirePlane;
    LoadedPlanes(d, typ, half, w, trailer);
    PaintKeeps(d.c.g, half, IsDelta(typ), d.c.bw, OnPlane(d.c.g, typ, half, w));
    if d.c.red.Some? {
      PaintKeeps(d.c.g, half, IsDelta(typ), d.c.red.value, OnRed(d.c.g, typ, half, w));
    }
  }

  lemma WrongByte(d: Device, typ: byte, half: bool, w: bytes, trailer: Option<word>, x: byte)
    requires d.Ok() && d.active && d.st == Idle && typ <= TYPE_DRLE2 && |w| < 0x1_0000 && x != FLUSH
    ensures Steps(d, Unflushed(typ, half, w, trailer) + [x])
         == Loaded(Opened(d, typ, half, trailer.Some?, |w|), w, trailer).(st := Idle)
  {
    hide Steps, Unflushed, Loaded, Opened, Flush, OnPayload, OnType, OnLenLo;
    var l := Loaded(Opened(d, typ, half, trailer.Some?, |w|), w, trailer);
    PacketLoads(d, typ, half, w, trailer);
    LoadedWaits(d, typ, half, w, trailer);
    StepsConcat(d, Unflushed(typ, half, w, trailer), [x]);
    StepsOne(l, x);
  }

  lemma LoadedWaits(d: Device, typ: byte, half: bool, w: bytes, trailer: Option<word>)
    requires d.Ok()
    ensures var l := Loaded(Opened(d, typ, half, trailer.Some?, |w|), w, trailer);
      l.st == FlushWait && l.active == d.active
  {
    hide WriteAll, DecodedSoFar, Run, RleSoFar;
  }

  /** A packet dropped at its last byte says nothing and shows nothing, and leaves the framebuffer
      as it was if and only if its payload left no trace on either plane. */
  lemma DroppedPacket(d: Device, typ: byte, half: bool, w: bytes, trailer: Option<word>, x: byte)
    requires d.Ok() && d.active && d.st == Idle && typ <= TYPE_DRLE2 && |w| < 0x1_0000 && x != FLUSH
    ensures var e := Steps(d, Unflushed(typ, half, w, trailer) + [x]);
      && e.st == Idle && e.active && e.poisoned == d.poisoned && e.panel == d.panel && e.acks == d.acks
      && (e.c.bw == d.c.bw <==> NoTraceBw(d, typ, half, w))
      && (e.c.red == d.c.red <==> NoTraceRed(d, typ, half, w)) && e.c.red.Some? == d.c.red.Some?
  {
    hide Steps, Unflushed, NoTraceBw, NoTraceRed, WriteAll, Run, DecodedSoFar, RleSoFar;
    WrongByte(d, typ, half, w, trailer, x);
    LoadedCanvas(d, typ, half, w, trailer);
  }

  /** For any packet and any last byte, sent to a device in agreement: framebuffer and controller
      RAM still agree afterwards exactly when the last byte is the flush byte, or the stream is
      poisoned, or the payload left no trace on the plane nor, while it is streamed, on the red
      one. */
  lemma LastByteDecides(d: Device, typ: byte, half: bool, w: bytes, trailer: Option<word>, x: byte)
    requires d.Ok() && d.active && d.st == Idle && typ <= TYPE_DRLE2 && |w| < 0x1_0000 && Mirror(d)
    ensures Mirror(Steps(d, Unflushed(typ, half, w, trailer) + [x])) <==>
      || x == FLUSH || d.poisoned
      || (NoTraceBw(d, typ, half, w)
          && (d.panel.streaming && d.panel.writeRed ==> NoTraceRed(d, typ, half, w)))
  {
    hide Steps, Unflushed, NoTraceBw, NoTraceRed;
    if x == FLUSH {
      PacketMirrors(d, typ, half, w, trailer);
    } else {
      DroppedPacket(d, typ, half, w, trailer, x);
    }
  }

  /** A case that only the red plane shows: the black-and-white plane sent again with another red
      one behind it, and dropped. */
  lemma RedGoesUnseen(d: Device, red: bytes, x: byte)
    requires d.Ok() && d.active && d.st == Idle && x != FLUSH
    requires d.c.red.Some? && |red| == d.c.g.Plane() && red != d.c.red.value
    ensures var e := Steps(d, Unflushed(TYPE_RAW2, false, d.c.bw + red, None) + [x]);
      e.c.bw == d.c.bw && e.c.red != d.c.red && e.panel == d.panel && e.poisoned == d.poisoned
  {
    hide Steps, Unflushed;
    var w := d.c.bw + red;
    assert OnPlane(d.c.g, TYPE_RAW2, false, w) == d.c.bw;
    assert OnRed(d.c.g, TYPE_RAW2, false, w) == red;
    var k :| 0 <= k < |red| && d.c.red.value[k] != red[k];
    assert Ink(d.c.g, false, k, red[Source(d.c.g, false, k)]) == red[k];
    DroppedPacket(d, TYPE_RAW2, false, w, None, x);
  }
}
