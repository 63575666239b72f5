/**
 * What a whole packet does to the two planes: when a keyframe restores the picture, whatever
 * damage came before, and when a red plane does not reach the controller.
 */
module VideoPlanes {
  import opened Bytes
  import opened Crc16
  import opened Framebuffer
  import opened PackBits
  import opened PanelRam
  import opened Raster
  import opened VideoDevice
  import opened VideoPacket

  // ---- what a keyframe heals ----

  /** The same device with other planes. */
  function Replaced(d: Device, bw: bytes, red: Option<bytes>): Device { d.(c := d.c.(bw := bw, red := red)) }

  predicate Alike(d: Device, bw: bytes, red: Option<bytes>)
    requires d.Ok()
  {
    && |bw| == d.c.g.Plane() && red.Some? == d.c.red.Some?
    && (red.Some? ==> |red.value| == d.c.g.Plane())
  }

  /** After the packet the planes it is for are the same as if they had held `bw` and `red`. */
  predicate SameFrom(d: Device, typ: byte, packet: bytes, bw: bytes, red: Option<bytes>)
    requires d.Ok() && Alike(d, bw, red)
  {
    var a, b := Steps(d, packet).c, Steps(Replaced(d, bw, red), packet).c;
    a.bw == b.bw && (IsDual(typ) ==> a.red == b.red)
  }

  /** The packet leaves the same picture whatever the planes held. */
  ghost predicate Heals(d: Device, typ: byte, packet: bytes)
    requires d.Ok()
  {
    forall bw, red :: Alike(d, bw, red) ==> SameFrom(d, typ, packet, bw, red)
  }

  /** The bytes that cover every plane the panel has of a frame. */
  function Needed(c: Canvas, s: Style): nat {
    if s.dual && c.red.Some? then 2 * WirePlane(c.g, s.half) else WirePlane(c.g, s.half)
  }

  lemma FlipBit(b: byte)
    ensures b ^ 0x01 != b
  {
  }

  /** A string shorter than its plane leaves some byte of the plane as it was. */
  lemma Uncovered(g: Geometry, half: bool, p: bytes, out: bytes) returns (k: nat, q: bytes)
    requires g.Ok() && (half ==> g.Even()) && |p| == g.Plane() && |out| < WirePlane(g, half)
    ensures k < |p| && |q| == |p| && Paint(g, half, false, q, out)[k] != Paint(g, half, false, p, out)[k]
  {
    hide HalfSource, HalfTarget, Ink, WirePlane;
    if half {
      HalfTargetInside(g, |out|);
      k := HalfTarget(g, |out|);
      HalfSourceTargets(g, k, |out|);
    } else {
      k := |out|;
      FullWire(g);
    }
    q := p[k := p[k] ^ 0x01];
    FlipBit(p[k]);
  }

  lemma FullWire(g: Geometry)
    ensures WirePlane(g, false) == g.Plane()
  {
  }

  lemma PlanesAfter(d: Device, typ: byte, half: bool, w: bytes, trailer: Option<word>, bw: bytes, red: Option<bytes>)
    requires d.Ok() && d.active && d.st == Idle && typ <= TYPE_DRLE2 && |w| < 0x1_0000 && !IsDelta(typ)
    requires Alike(d, bw, red)
    ensures Replaced(d, bw, red).Ok()
    ensures var c, plane := Steps(Replaced(d, bw, red), Packet(typ, half, w, trailer)).c, WirePlane(d.c.g, half);
      && c.bw == Paint(d.c.g, half, false, bw, FirstPart(plane, Decoded(typ, w)))
      && (IsDual(typ) ==>
            c.red == if red.None? then None
                     else Some(Paint(d.c.g, half, false, red.value, SecondPart(plane, Decoded(typ, w)))))
  {
    hide Steps, Paint, Decoded, Packet, WirePlane, FirstPart, SecondPart;
    PacketOutcome(Replaced(d, bw, red), typ, half, w, trailer);
  }

  lemma WholeHeals(d: Device, typ: byte, half: bool, w: bytes, trailer: Option<word>)
    requires d.Ok() && d.active && d.st == Idle && typ <= TYPE_DRLE2 && |w| < 0x1_0000 && !IsDelta(typ)
    requires |Decoded(typ, w)| >= Needed(d.c, Layout(typ, half))
    ensures Heals(d, typ, Packet(typ, half, w, trailer))
    ensures var c, out, plane := Steps(d, Packet(typ, half, w, trailer)).c, Decoded(typ, w), WirePlane(d.c.g, half);
      && c.bw == Render(d.c.g, half, out[..plane])
      && (IsDual(typ) && d.c.red.Some? ==> c.red == Some(Render(d.c.g, half, out[plane..2 * plane])))
  {
    hide Steps, Paint, Decoded, Packet, WirePlane, Render;
    var g, out, plane, pk := d.c.g, Decoded(typ, w), WirePlane(d.c.g, half), Packet(typ, half, w, trailer);
    forall bw, red | Alike(d, bw, red)
      ensures
        && var c := Steps(Replaced(d, bw, red), pk).c;
        && c.bw == Render(g, half, out[..plane])
        && (IsDual(typ) ==>
              c.red == if d.c.red.None? then None else Some(Render(g, half, out[plane..2 * plane])))
    {
      PlanesAfter(d, typ, half, w, trailer, bw, red);
      KeyframePaints(g, half, bw, out[..plane]);
      if IsDual(typ) && red.Some? { KeyframePaints(g, half, red.value, out[plane..2 * plane]); }
    }
    assert Alike(d, d.c.bw, d.c.red) && Replaced(d, d.c.bw, d.c.red) == d;
    forall bw, red | Alike(d, bw, red) ensures SameFrom(d, typ, pk, bw, red) { }
  }

  lemma ShortHealsNot(d: Device, typ: byte, half: bool, w: bytes, trailer: Option<word>)
    requires d.Ok() && d.active && d.st == Idle && typ <= TYPE_DRLE2 && |w| < 0x1_0000 && !IsDelta(typ)
    requires |Decoded(typ, w)| < Needed(d.c, Layout(typ, half))
    ensures !Heals(d, typ, Packet(typ, half, w, trailer))
  {
    hide Steps, Paint, Decoded, Packet, WirePlane;
    var g, out, plane := d.c.g, Decoded(typ, w), WirePlane(d.c.g, half);
    var bw, red := d.c.bw, d.c.red;
    if |out| < plane {
      var k, q := Uncovered(g, half, d.c.bw, out);
      bw := q;
      assert FirstPart(plane, out) == out;
    } else {
      var k, q := Uncovered(g, half, d.c.red.value, SecondPart(plane, out));
      red := Some(q);
    }
    assert Alike(d, bw, red) && Replaced(d, d.c.bw, d.c.red) == d;
    PlanesAfter(d, typ, half, w, trailer, d.c.bw, d.c.red);
    PlanesAfter(d, typ, half, w, trailer, bw, red);
    assert !SameFrom(d, typ, Packet(typ, half, w, trailer), bw, red);
  }

  /** A keyframe with a right CRC clears the poison, however little it decodes to. It leaves a
      picture that does not depend on what was there exactly when it decodes to at least every
      byte of the planes it is for, and then that picture is its own. */
  lemma KeyframeHeals(d: Device, typ: byte, half: bool, w: bytes, trailer: Option<word>)
    requires d.Ok() && d.active && d.st == Idle && typ <= TYPE_DRLE2 && |w| < 0x1_0000 && !IsDelta(typ)
    ensures Steps(d, Packet(typ, half, w, trailer)).poisoned <==> CrcFails(w, trailer)
    ensures Heals(d, typ, Packet(typ, half, w, trailer)) <==>
      |Decoded(typ, w)| >= Needed(d.c, Layout(typ, half))
    ensures |Decoded(typ, w)| >= Needed(d.c, Layout(typ, half)) ==>
      var c, out, plane := Steps(d, Packet(typ, half, w, trailer)).c, Decoded(typ, w), WirePlane(d.c.g, half);
      && c.bw == Render(d.c.g, half, out[..plane])
      && (IsDual(typ) && d.c.red.Some? ==> c.red == Some(Render(d.c.g, half, out[plane..2 * plane])))
  {
    hide Steps, Heals, Decoded, Packet, WirePlane, Laid, CrcFails;
    PacketOutcome(d, typ, half, w, trailer);
    if |Decoded(typ, w)| >= Needed(d.c, Layout(typ, half)) {
      WholeHeals(d, typ, half, w, trailer);
    } else {
      ShortHealsNot(d, typ, half, w, trailer);
    }
  }

  // ---- the red plane and the maintenance cycle ----

  /** The red plane of a shown two-plane packet is in the controller afterwards if and only if its
      update was not the one the maintenance cycle takes, or there was nothing red to show. */
  lemma RedPlaneReaches(d: Device, typ: byte, half: bool, w: bytes, trailer: Option<word>)
    requires d.Ok() && d.active && d.st == Idle && IsDual(typ) && |w| < 0x1_0000
    ensures var d' := Steps(d, Packet(typ, half, w, trailer));
      !d'.poisoned ==>
        (d'.panel.red == Some(d'.c.RedPlane()) <==> !Due(d.panel) || d'.c.RedPlane() == NoRed(d.c.g))
  {
    hide Steps, Packet, Due, NoRed, Canvas.RedPlane, Device.Ok;
    PacketRed(d, typ, half, w, trailer);
  }

  /** So any picture with something red in it loses that when the maintenance update is due. */
  lemma RedPlaneLost(d: Device, pic: bytes)
    requires d.Ok() && d.active && d.st == Idle && d.c.red.Some? && Due(d.panel)
    requires |pic| == 2 * d.c.g.Plane() && pic[d.c.g.Plane()..] != NoRed(d.c.g)
    ensures var d' := Steps(d, Packet(TYPE_RAW2, false, pic, None));
      && !d'.poisoned && d'.c.red == Some(pic[d.c.g.Plane()..])
      && d'.panel.red == Some(NoRed(d.c.g)) && d'.panel.red != d'.c.red
  {
    hide Steps, Packet, Due, NoRed;
    var g := d.c.g;
    PacketRed(d, TYPE_RAW2, false, pic, None);
    KeyframeHeals(d, TYPE_RAW2, false, pic, None);
    FullWire(g);
    assert pic[g.Plane()..2 * g.Plane()] == pic[g.Plane()..];
    assert Render(g, false, pic[g.Plane()..]) == pic[g.Plane()..];
  }

  /** A streaming device of four plane bytes, 499 updates old. */
  const DUE_DEVICE: Device :=
    Device(Idle, Frame(0, false, false, 0, 0, RLE_START, 0, 0),
           Canvas(Geometry(2, 2), [0xFF, 0xFF, 0xFF, 0xFF], Some([0, 0, 0, 0]), 0, 0, 0), false, true, 0,
           Panel(true, 499, true, [0xFF, 0xFF, 0xFF, 0xFF], Some([0, 0, 0, 0])), [])

  const RED_DOT: bytes := [0xFF, 0xFF, 0xFF, 0xFF, 0x80, 0, 0, 0]

  /** A red dot sent to it is in the framebuffer and not in the controller. */
  lemma RedDotLost()
    ensures DUE_DEVICE.Ok() && Mirror(DUE_DEVICE)
    ensures var d' := Steps(DUE_DEVICE, Packet(TYPE_RAW2, false, RED_DOT, None));
      && !d'.poisoned && d'.c.red == Some([0x80, 0, 0, 0]) && d'.panel.red == Some([0, 0, 0, 0])
  {
    hide Steps, Packet;
    var g := DUE_DEVICE.c.g;
    assert g.Plane() == 4;
    assert NoRed(g) == [0, 0, 0, 0];
    assert RED_DOT[4..] == [0x80, 0, 0, 0];
    assert RED_DOT[4..][0] != NoRed(g)[0];
    RedPlaneLost(DUE_DEVICE, RED_DOT);
  }
}
