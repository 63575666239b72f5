/**
 * The framing of the video stream: what a host puts around a payload, and what the device
 * makes of a whole packet, whatever bytes its payload holds.
 */
module VideoPacket {
  import opened Bytes
  import opened Crc16
  import opened PackBits
  import opened PanelRam
  import opened Framebuffer
  import opened VideoDevice

  /** The type byte: encoding, CRC flag and half-resolution flag. */
  function TypeByte(typ: byte, useCrc: bool, half: bool): byte {
    var t := if useCrc then typ | CRC_FLAG else typ;
    if half then t | HALF_FLAG else t
  }

  function Trailer(crc: word): bytes { [(crc >> 8) as byte, (crc & 0xFF) as byte] }

  /** A packet up to its flush byte: any payload, any trailer. */
  function Unflushed(typ: byte, half: bool, payload: bytes, trailer: Option<word>): bytes
    requires |payload| < 0x1_0000
  {
    [HDR1, HDR2, TypeByte(typ, trailer.Some?, half), HighByte(|payload|), LowByte(|payload|)]
      + payload + (match trailer case None => [] case Some(c) => Trailer(c))
  }

  /** A packet as it arrives. */
  function Packet(typ: byte, half: bool, payload: bytes, trailer: Option<word>): bytes
    requires |payload| < 0x1_0000
  {
    Unflushed(typ, half, payload, trailer) + [FLUSH]
  }

  /** vs_wrap: the packet a host sends. */
  function Wrap(typ: byte, half: bool, payload: bytes, useCrc: bool): bytes
    requires |payload| < 0x1_0000
  {
    Packet(typ, half, payload, if useCrc then Some(Crc(payload)) else None)
  }

  /** A packet byte by byte: AA 55, the type byte, the length with its high byte first, the payload,
      the CRC with its high byte first when there is one, BB. */
  lemma PacketOnTheWire(typ: byte, half: bool, w: bytes, useCrc: bool)
    requires typ <= TYPE_DRLE2 && |w| < 0x1_0000
    ensures var p, n := Wrap(typ, half, w, useCrc), |w|;
      && |p| == n + 6 + (if useCrc then 2 else 0)
      && p[0] == 0xAA && p[1] == 0x55
      && p[2] == typ + (if useCrc then 0x40 else 0) + (if half then 0x20 else 0)
      && 256 * p[3] as int + p[4] as int == n
      && p[5..5 + n] == w
      && (useCrc ==> Joined(p[5 + n], p[6 + n]) == Crc(w))
      && p[|p| - 1] == 0xBB
  {
    hide TypeByte, HighByte, LowByte, Crc, Trailer, Joined;
    TypeByteSum(typ, useCrc, half);
    SplitJoin(|w|);
    TrailerLength(Crc(w));
    TrailerJoins(Crc(w));
    PacketParts([HDR1, HDR2, TypeByte(typ, useCrc, half), HighByte(|w|), LowByte(|w|)], w,
                if useCrc then Trailer(Crc(w)) else []);
  }

  function Joined(hi: byte, lo: byte): word { ((hi as word) << 8) | (lo as word) }

  lemma PacketParts(head: bytes, w: bytes, tail: bytes)
    requires |head| == 5
    ensures var p := head + w + tail + [FLUSH];
      && |p| == 6 + |w| + |tail| && p[..5] == head && p[5..5 + |w|] == w && p[|p| - 1] == FLUSH
      && forall i :: 0 <= i < |tail| ==> p[5 + |w| + i] == tail[i]
  {
  }

  lemma TypeByteSum(typ: byte, useCrc: bool, half: bool)
    requires typ <= TYPE_DRLE2
    ensures TypeByte(typ, useCrc, half) == typ + (if useCrc then 0x40 else 0) + (if half then 0x20 else 0)
  {
  }

  lemma TrailerJoins(crc: word)
    ensures Joined(Trailer(crc)[0], Trailer(crc)[1]) == crc
  {
  }

  lemma TypeByteParses(typ: byte, useCrc: bool, half: bool)
    requires typ <= TYPE_DRLE2
    ensures var t := TypeByte(typ, useCrc, half);
      (t & CRC_FLAG != 0) == useCrc && (t & HALF_FLAG != 0) == half && t & TYPE_MASK & !HALF_FLAG == typ
  {
  }

  lemma TrailerParses(crc: word)
    ensures WithLowHalf(HighHalf(Trailer(crc)[0]), Trailer(crc)[1]) == crc
  {
  }

  // ---- runs of the parser ----

  lemma {:induction false} StepsConcat(d: Device, a: bytes, b: bytes)
    requires d.Ok()
    ensures Steps(d, a + b) == Steps(Steps(d, a), b)
    decreases |b|
  {
    hide Step;
    if b == [] {
      assert a + b == a;
    } else {
      var n := |b| - 1;
      StepsConcat(d, a, b[..n]);
      assert (a + b)[..|a + b| - 1] == a + b[..n];
    }
  }

  lemma StepsOne(d: Device, b: byte)
    requires d.Ok()
    ensures Steps(d, [b]) == Step(d, b)
  {
    hide Step;
    assert Steps(d, [b][..0]) == d;
  }

  /** The parser right after a header. */
  function Opened(d: Device, typ: byte, half: bool, hasCrc: bool, n: nat): (r: Device)
    requires d.Ok()
    ensures r.Ok()
  {
    d.(f := Frame(typ, hasCrc, half, n, 0, RLE_START, INIT, 0), c := Restart(d.c),
       st := if n > 0 then Data else if hasCrc then CrcHi else FlushWait)
  }

  lemma StepsTwo(d: Device, a: byte, b: byte)
    requires d.Ok()
    ensures Steps(d, [a, b]) == Step(Step(d, a), b)
  {
    hide Step, Steps;
    assert [a] + [b] == [a, b];
    StepsConcat(d, [a], [b]);
    StepsOne(d, a);
    StepsOne(Step(d, a), b);
  }

  lemma MarkerAndType(d: Device, typ: byte, half: bool, hasCrc: bool)
    requires d.Ok() && d.active && d.st == Idle && typ <= TYPE_DRLE2
    ensures Step(Step(Step(d, HDR1), HDR2), TypeByte(typ, hasCrc, half))
         == d.(f := d.f.(hasCrc := hasCrc, half := half, typ := typ), st := LenHi)
  {
    hide TypeByte, Flush, OnPayload, OnLenLo;
    TypeByteParses(typ, hasCrc, half);
  }

  lemma LengthBytes(d: Device, n: nat)
    requires d.Ok() && d.active && d.st == LenHi && n < 0x1_0000
    ensures Step(Step(d, HighByte(n)), LowByte(n)) == Opened(d, d.f.typ, d.f.half, d.f.hasCrc, n)
  {
    hide Device.Ok, HighByte, LowByte, Flush, OnPayload, OnType;
    SplitJoin(n);
  }

  lemma HeaderOpens(d: Device, typ: byte, half: bool, hasCrc: bool, n: nat)
    requires d.Ok() && d.active && d.st == Idle && typ <= TYPE_DRLE2 && n < 0x1_0000
    ensures Steps(d, [HDR1, HDR2, TypeByte(typ, hasCrc, half), HighByte(n), LowByte(n)])
         == Opened(d, typ, half, hasCrc, n)
  {
    hide Device.Ok, TypeByte, HighByte, LowByte, Steps, Step;
    MarkerAndType(d, typ, half, hasCrc);
    var t, hi, lo := TypeByte(typ, hasCrc, half), HighByte(n), LowByte(n);
    var d2 := Step(Step(d, HDR1), HDR2);
    var d3 := Step(d2, t);
    StepsTwo(d, HDR1, HDR2);
    StepsConcat(d, [HDR1, HDR2], [t]);
    StepsOne(d2, t);
    StepsConcat(d, [HDR1, HDR2] + [t], [hi, lo]);
    StepsTwo(d3, hi, lo);
    LengthBytes(d3, n);
    assert [HDR1, HDR2] + [t] + [hi, lo] == [HDR1, HDR2, t, hi, lo];
  }

  /** What has been decompressed, and the decompressor, after a prefix of the payload. */
  function DecodedSoFar(typ: byte, w: bytes): bytes {
    if IsRaw(typ) then w else FeedAll(RLE_START, w).1
  }

  function RleSoFar(typ: byte, w: bytes): (r: Rle)
    ensures r.Valid()
  {
    if IsRaw(typ) then RLE_START else FeedAll(RLE_START, w).0
  }

  /** The frame registers after a prefix `w` of the payload. */
  function FrameMidway(f: Frame, w: bytes): Frame {
    f.(prx := |w|, crc := Run(INIT, w), rle := RleSoFar(f.typ, w))
  }

  /** The parser after a prefix `w` of the payload. */
  function Midway(o: Device, w: bytes): (r: Device)
    requires o.Ok()
    ensures r.Ok() && r.c.g == o.c.g
  {
    o.(f := FrameMidway(o.f, w),
       c := WriteAll(o.c, o.f.Layout(), DecodedSoFar(o.f.typ, w)),
       st := AfterPayload(FrameMidway(o.f, w)))
  }

  /** All of a payload, decompressed: what the device has written once it has drained. */
  function Decoded(typ: byte, w: bytes): bytes { if IsRaw(typ) then w else Expand(w) }

  lemma FrameStep(f: Frame, w: bytes, b: byte)
    ensures var m := FrameMidway(f, w);
      && NextRle(m, b) == RleSoFar(f.typ, w + [b])
      && NibbleUpdate(m.crc, b) == Run(INIT, w + [b])
      && DecodedSoFar(f.typ, w + [b]) == DecodedSoFar(f.typ, w) + Yield(m, b)
  {
    assert (w + [b])[..|w|] == w;
    NibbleUpdateIsFeedByte(Run(INIT, w), b);
    hide NibbleUpdate, FeedByte, Feed;
  }

  lemma MidwayStep(o: Device, w: bytes, b: byte)
    requires o.Ok() && o.active && |w| < o.f.plen
    ensures Step(Midway(o, w), b) == Midway(o, w + [b])
  {
    hide Flush, OnType, OnLenLo, NibbleUpdate, WriteAll, NextRle, Yield, DecodedSoFar, RleSoFar, Run;
    FrameStep(o.f, w, b);
    WriteAllConcat(o.c, o.f.Layout(), DecodedSoFar(o.f.typ, w), Yield(FrameMidway(o.f, w), b));
  }

  lemma {:induction false} PayloadRuns(o: Device, w: bytes)
    requires o.Ok() && o.active && o.f.rle == RLE_START && o.f.prx == 0 && o.f.crc == INIT
    requires 0 < |w| <= o.f.plen && o.st == Data
    ensures Steps(o, w) == Midway(o, w)
    decreases |w|
  {
    hide Step;
    var n := |w| - 1;
    assert w[..n] + [w[n]] == w;
    if n == 0 {
      assert w[..n] == [];
      assert Midway(o, []) == o;
    } else {
      PayloadRuns(o, w[..n]);
    }
    MidwayStep(o, w[..n], w[n]);
  }

  /** The parser once payload and trailer are in, waiting for the flush byte. */
  function Loaded(o: Device, w: bytes, trailer: Option<word>): (r: Device)
    requires o.Ok()
    ensures r.Ok() && r.c.g == o.c.g
  {
    var m := Midway(o, w);
    m.(st := FlushWait, f := m.f.(crcRx := if trailer.Some? then trailer.value else m.f.crcRx))
  }

  lemma TrailerLoads(o: Device, w: bytes, trailer: Option<word>)
    requires o.Ok() && o.active && |w| >= o.f.plen && o.f.hasCrc == trailer.Some?
    ensures Steps(Midway(o, w), match trailer case None => [] case Some(c) => Trailer(c))
         == Loaded(o, w, trailer)
  {
    hide Device.Ok, Flush, OnPayload, OnType, OnLenLo, Trailer, WriteAll, Steps, HighHalf, WithLowHalf;
    var m := Midway(o, w);
    match trailer
    case None => StepsNone(m);
    case Some(c) =>
      TrailerParses(c);
      TrailerLength(c);
      StepsTwo(m, Trailer(c)[0], Trailer(c)[1]);
      assert Trailer(c) == [Trailer(c)[0], Trailer(c)[1]];
  }

  lemma StepsNone(d: Device)
    requires d.Ok()
    ensures Steps(d, []) == d
  {
  }

  lemma TrailerLength(c: word)
    ensures |Trailer(c)| == 2
  {
  }

  /** Everything up to the flush byte loads the parser. */
  lemma PacketLoads(d: Device, typ: byte, half: bool, w: bytes, trailer: Option<word>)
    requires d.Ok() && d.active && d.st == Idle && typ <= TYPE_DRLE2 && |w| < 0x1_0000
    ensures Steps(d, Unflushed(typ, half, w, trailer))
         == Loaded(Opened(d, typ, half, trailer.Some?, |w|), w, trailer)
  {
    hide Device.Ok, Step, Steps, TypeByte, HighByte, LowByte, Flush, Trailer, Midway, Loaded;
    var o := Opened(d, typ, half, trailer.Some?, |w|);
    var head := [HDR1, HDR2, TypeByte(typ, trailer.Some?, half), HighByte(|w|), LowByte(|w|)];
    var tail := match trailer case None => [] case Some(c) => Trailer(c);
    HeaderOpens(d, typ, half, trailer.Some?, |w|);
    StepsConcat(d, head, w);
    PayloadOf(o, w);
    StepsConcat(d, head + w, tail);
    TrailerLoads(o, w, trailer);
  }

  /** A whole packet is a flush of the loaded parser. */
  lemma PacketFlushes(d: Device, typ: byte, half: bool, w: bytes, trailer: Option<word>)
    requires d.Ok() && d.active && d.st == Idle && typ <= TYPE_DRLE2 && |w| < 0x1_0000
    ensures var o := Opened(d, typ, half, trailer.Some?, |w|);
      Steps(d, Packet(typ, half, w, trailer)) == Flush(Loaded(o, w, trailer)).(st := Idle)
  {
    hide Device.Ok, Step, Steps, Flush, Unflushed, Loaded;
    var o := Opened(d, typ, half, trailer.Some?, |w|);
    PacketLoads(d, typ, half, w, trailer);
    StepsConcat(d, Unflushed(typ, half, w, trailer), [FLUSH]);
    StepsOne(Loaded(o, w, trailer), FLUSH);
    LoadedFlushes(o, w, trailer);
  }

  lemma PayloadOf(o: Device, w: bytes)
    requires o.Ok() && o.active && o.f.rle == RLE_START && o.f.prx == 0 && o.f.crc == INIT
    requires o.f.plen == |w| && o.st == AfterPayload(o.f)
    ensures Steps(o, w) == Midway(o, w)
  {
    hide Device.Ok, Step, Steps;
    if w == [] {
      StepsNone(o);
    } else {
      PayloadRuns(o, w);
    }
  }

  lemma LoadedFlushes(o: Device, w: bytes, trailer: Option<word>)
    requires o.Ok() && o.active
    ensures Step(Loaded(o, w, trailer), FLUSH) == Flush(Loaded(o, w, trailer)).(st := Idle)
  {
    hide Flush, OnPayload, OnType, OnLenLo, FrameMidway, WriteAll;
  }

  // ---- the outcome of a packet ----

  function Layout(typ: byte, half: bool): Style { Style(IsDual(typ), IsDelta(typ), half) }

  predicate CrcFails(w: bytes, trailer: Option<word>) { trailer.Some? && trailer.value != Crc(w) }

  lemma DrainedCanvas(o: Device, w: bytes, trailer: Option<word>)
    requires o.Ok() && o.f.rle == RLE_START
    ensures FlushRun(Loaded(o, w, trailer)).c == WriteAll(o.c, o.f.Layout(), Decoded(o.f.typ, w))
  {
    hide WriteAll, Flush, Drain, FeedAll, Expand;
    if !IsRaw(o.f.typ) {
      var (r, out) := FeedAll(RLE_START, w);
      LazyDecoderIsExpand(w);
      WriteAllConcat(o.c, o.f.Layout(), out, Pending(r));
    }
  }

  /** What the device makes of any packet: every decoded byte is laid on the framebuffer once,
      a wrong CRC poisons the stream, a good keyframe heals it, the panel is left alone while the
      stream is poisoned, and the acknowledgement says
      how many bytes were decoded and asks for a keyframe exactly when the stream is poisoned. */
  lemma PacketOutcome(d: Device, typ: byte, half: bool, w: bytes, trailer: Option<word>)
    requires d.Ok() && d.active && d.st == Idle && typ <= TYPE_DRLE2 && |w| < 0x1_0000
    ensures
      var d' := Steps(d, Packet(typ, half, w, trailer));
      var s, out := Layout(typ, half), Decoded(typ, w);
      && d'.st == Idle && d'.active && d'.frames == d.frames + 1
      && Laid(Restart(d.c), d'.c, s, out)
      && d'.poisoned == (CrcFails(w, trailer) || (IsDelta(typ) && d.poisoned))
      && (d'.poisoned ==> d'.panel == d.panel)
      && |d'.acks| == |d.acks| + 1 && d'.acks[..|d.acks|] == d.acks
      && var ack := d'.acks[|d.acks|];
      && ack.frame == d.frames + 1
      && ack.dec == Min(|out|, MaxDec(d.c.g, s))
      && ack.wc == (if trailer.None? then NoCrc else if trailer.value == Crc(w) then CrcOk else CrcBad)
      && ack.resync == d'.poisoned
  {
    hide Steps, WriteAll, Laid, Decoded, FlushRun, UpdateRows;
    var o := Opened(d, typ, half, trailer.Some?, |w|);
    PacketFlushes(d, typ, half, w, trailer);
    DrainedCanvas(o, w, trailer);
    WriteAllLays(o.c, Layout(typ, half), Decoded(typ, w));
    LaidDec(o.c, Layout(typ, half), Decoded(typ, w));
    DrainedFrame(Loaded(o, w, trailer));
  }

  lemma JudgedRows(d: Device)
    requires d.Ok()
    ensures var r := Judged(d);
      && r.c == d.c && |r.acks| == |d.acks| + 1
      && r.acks[|d.acks|].rows ==
         if IsDelta(d.f.typ) && !IsDual(d.f.typ) then Max(d.c.y1 - d.c.y0 + 1, 0) else d.c.g.height
  {
    hide UpdateRows;
  }

  /** The rows an acknowledgement reports: all of them, but for a single-plane delta those from the
      first to the last one its non-zero bytes fall on. */
  lemma PacketRows(d: Device, typ: byte, half: bool, w: bytes, trailer: Option<word>)
    requires d.Ok() && d.active && d.st == Idle && typ <= TYPE_DRLE2 && |w| < 0x1_0000
    ensures var d' := Steps(d, Packet(typ, half, w, trailer));
      && |d'.acks| == |d.acks| + 1
      && (!IsDelta(typ) || IsDual(typ) ==> d'.acks[|d.acks|].rows == d.c.g.height)
      && (IsDelta(typ) && !IsDual(typ) ==>
            && Spans(d.c.g, half, Decoded(typ, w), d'.c.y0, d'.c.y1)
            && d'.acks[|d.acks|].rows == Max(d'.c.y1 - d'.c.y0 + 1, 0))
  {
    hide Steps, WriteAll, Decoded, FlushRun, Judged, Spans;
    var o := Opened(d, typ, half, trailer.Some?, |w|);
    PacketFlushes(d, typ, half, w, trailer);
    DrainedCanvas(o, w, trailer);
    DrainedFrame(Loaded(o, w, trailer));
    JudgedRows(FlushRun(Loaded(o, w, trailer)));
    if IsDelta(typ) && !IsDual(typ) { DeltaSpans(d.c, Layout(typ, half), Decoded(typ, w)); }
  }

  lemma JudgedRed(d: Device)
    requires d.Ok()
    ensures var r := Judged(d);
      IsDual(d.f.typ) && !r.poisoned ==>
        && r.panel.streaming == !Due(d.panel)
        && r.panel.red == Some(if Due(d.panel) then NoRed(d.c.g) else d.c.RedPlane())
  {
    hide RowsLoaded;
  }

  /** Where the red plane of a shown two-plane frame goes: to the controller's red RAM, unless the
      update was the one the maintenance cycle takes, which leaves that RAM empty. */
  lemma PacketRed(d: Device, typ: byte, half: bool, w: bytes, trailer: Option<word>)
    requires d.Ok() && d.active && d.st == Idle && typ <= TYPE_DRLE2 && |w| < 0x1_0000
    ensures var d' := Steps(d, Packet(typ, half, w, trailer));
      IsDual(typ) && !d'.poisoned ==>
        && d'.panel.streaming == !Due(d.panel)
        && d'.panel.red == Some(if Due(d.panel) then NoRed(d.c.g) else d'.c.RedPlane())
  {
    hide Steps, WriteAll, FlushRun, Judged, NoRed, Due, DecodedSoFar;
    var o := Opened(d, typ, half, trailer.Some?, |w|);
    PacketFlushes(d, typ, half, w, trailer);
    DrainedFrame(Loaded(o, w, trailer));
    JudgedRed(FlushRun(Loaded(o, w, trailer)));
  }

  lemma LaidDec(c: Canvas, s: Style, out: bytes)
    requires c.Takes(s) && Laid(c, WriteAll(c, s, out), s, out)
    ensures WriteAll(c, s, out).dec == Min(|out|, MaxDec(c.g, s))
  {
  }

  /** Draining touches only the decompressor and the canvas. */
  lemma DrainedFrame(d: Device)
    requires d.Ok()
    ensures FlushRun(d) == d.(c := FlushRun(d).c, f := d.f.(rle := FlushRun(d).f.rle))
  {
    hide WriteAll;
  }

  /** A packet that meets the controller RAM in step with the framebuffer leaves it so. */
  lemma PacketMirrors(d: Device, typ: byte, half: bool, w: bytes, trailer: Option<word>)
    requires d.Ok() && d.active && d.st == Idle && typ <= TYPE_DRLE2 && |w| < 0x1_0000
    requires Mirror(d)
    ensures Mirror(Steps(d, Packet(typ, half, w, trailer)))
  {
    hide Steps, WriteAll, DecodedSoFar, Flush, Run;
    var o := Opened(d, typ, half, trailer.Some?, |w|);
    PacketFlushes(d, typ, half, w, trailer);
    if !IsDual(typ) { WriteAllKeepsRed(o.c, Layout(typ, half), DecodedSoFar(typ, w)); }
    if IsDelta(typ) && !IsDual(typ) && !d.poisoned {
      WriteAllMarks(o.c, Layout(typ, half), DecodedSoFar(typ, w), d.panel.ram);
    }
    FlushMirrors(Loaded(o, w, trailer));
  }

  // ---- any number of packets in a row ----

  /** A frame a host wraps: raw bytes as they are, anything else compressed. */
  datatype Wrapped = Wrapped(typ: byte, half: bool, data: bytes, useCrc: bool) {
    function Payload(): bytes { if IsRaw(typ) then data else Pack(data) }

    predicate Ok() { typ <= TYPE_DRLE2 && |Payload()| < 0x1_0000 }
  }

  predicate AllOk(ps: seq<Wrapped>) { forall i :: 0 <= i < |ps| ==> ps[i].Ok() }

  /** The bytes of the first i packets, back to back. */
  function Concat(ps: seq<Wrapped>, i: nat): bytes
    requires i <= |ps| && AllOk(ps)
  {
    if i == 0 then []
    else
      var p := ps[i - 1];
      Concat(ps, i - 1) + Wrap(p.typ, p.half, p.Payload(), p.useCrc)
  }

  lemma DecodedPayload(p: Wrapped)
    ensures Decoded(p.typ, p.Payload()) == p.data
  {
    hide Pack, Expand;
    RoundTrip(p.data);
  }

  /** The device after the first i packets of a list. */
  function AfterPackets(d: Device, ps: seq<Wrapped>, i: nat): (r: Device)
    requires d.Ok() && i <= |ps| && AllOk(ps)
    ensures r.Ok()
  {
    Steps(d, Concat(ps, i))
  }

  /** The i-th packet is flushed once, its data laid on the framebuffer byte for byte. */
  predicate FlushedOnce(before: Device, after: Device, p: Wrapped)
    requires before.Ok()
  {
    && after.st == Idle && after.active
    && Laid(Restart(before.c), after.c, Layout(p.typ, p.half), p.data)
    && |after.acks| == |before.acks| + 1 && after.acks[..|before.acks|] == before.acks
    && after.acks[|before.acks|].wc != CrcBad
    && after.acks[|before.acks|].dec == Min(|p.data|, MaxDec(before.c.g, Layout(p.typ, p.half)))
  }

  lemma NextPacket(d: Device, ps: seq<Wrapped>, i: nat)
    requires d.Ok() && i < |ps| && AllOk(ps)
    requires var a := AfterPackets(d, ps, i); a.active && a.st == Idle
    ensures var a, b := AfterPackets(d, ps, i), AfterPackets(d, ps, i + 1);
      FlushedOnce(a, b, ps[i]) && b.active && b.st == Idle && |b.acks| == |a.acks| + 1
  {
    hide FlushedOnce, Steps, Wrap, Device.Ok, Wrapped.Payload;
    var p := ps[i];
    assert p.Ok();
    StepsConcat(d, Concat(ps, i), Wrap(p.typ, p.half, p.Payload(), p.useCrc));
    OnePacket(AfterPackets(d, ps, i), p);
  }

  lemma {:induction false} PacketsFlush(d: Device, ps: seq<Wrapped>, n: nat)
    requires d.Ok() && d.active && d.st == Idle && AllOk(ps) && n <= |ps|
    ensures var a := AfterPackets(d, ps, n); a.active && a.st == Idle && |a.acks| == |d.acks| + n
    ensures forall i :: 0 <= i < n ==>
      FlushedOnce(AfterPackets(d, ps, i), AfterPackets(d, ps, i + 1), ps[i])
  {
    hide FlushedOnce, AfterPackets, Device.Ok, AllOk;
    if n == 0 {
      NoPackets(d, ps);
    } else {
      PacketsFlush(d, ps, n - 1);
      NextPacket(d, ps, n - 1);
    }
  }

  lemma NoPackets(d: Device, ps: seq<Wrapped>)
    requires d.Ok() && AllOk(ps)
    ensures AfterPackets(d, ps, 0) == d
  {
    StepsNone(d);
  }

  /** Packets back to back, whatever bytes their payloads hold: each is flushed exactly once,
      in order, and decodes to exactly the bytes that were wrapped. */
  lemma PacketsFlushInOrder(d: Device, ps: seq<Wrapped>)
    requires d.Ok() && d.active && d.st == Idle && AllOk(ps)
    ensures AfterPackets(d, ps, 0) == d
    ensures forall i :: 0 <= i < |ps| ==>
      FlushedOnce(AfterPackets(d, ps, i), AfterPackets(d, ps, i + 1), ps[i])
    ensures |AfterPackets(d, ps, |ps|).acks| == |d.acks| + |ps|
  {
    hide FlushedOnce, AfterPackets, AllOk, Device.Ok;
    NoPackets(d, ps);
    PacketsFlush(d, ps, |ps|);
  }

  lemma OnePacket(d: Device, p: Wrapped)
    requires d.Ok() && d.active && d.st == Idle && p.Ok()
    ensures var e := Steps(d, Wrap(p.typ, p.half, p.Payload(), p.useCrc));
      FlushedOnce(d, e, p) && e.active && e.st == Idle && |e.acks| == |d.acks| + 1
  {
    hide Steps, Packet, Laid, Decoded, Wrapped.Payload, Crc, Device.Ok;
    DecodedPayload(p);
    PacketOutcome(d, p.typ, p.half, p.Payload(), if p.useCrc then Some(Crc(p.Payload())) else None);
  }

  // ---- the frame that is abandoned ----

  /** A one-byte delta whose flush byte is wrong. */
  const ABANDONED: bytes := [HDR1, HDR2, TypeByte(TYPE_DRLE, false, false), HighByte(2), LowByte(2), 0x00, 0x01, 0x00]

  lemma LiteralOne()
    ensures FeedAll(RLE_START, [0x00, 0x01]).1 == [0x01]
  {
    var w: bytes := [0x00, 0x01];
    assert !IsRun(0x00) && Announced(0x00) == 1;
    var (r, none) := Feed(RLE_START, 0x00);
    assert r == Rle(Literal, 1, 0) && none == [];
    assert FeedAll(RLE_START, w[..1][..0]) == (RLE_START, []);
    assert FeedAll(RLE_START, w[..1]) == (Rle(Literal, 1, 0), []);
  }

  /** It leaves every clean device with a framebuffer its controller RAM does not have. */
  lemma AbandonedFrameBreaksMirror(d: Device)
    requires d.Ok() && d.active && d.st == Idle && !d.poisoned && Mirror(d)
    ensures !Mirror(Steps(d, ABANDONED))
  {
    hide Steps, WriteAll, Laid, FeedAll, Run, Flush, OnPayload, OnType, OnLenLo, TypeByte;
    var o := Opened(d, TYPE_DRLE, false, false, 2);
    var w := [0x00, 0x01];
    var m := Midway(o, w);
    var head := [HDR1, HDR2, TypeByte(TYPE_DRLE, false, false), HighByte(2), LowByte(2)];
    HeaderOpens(d, TYPE_DRLE, false, false, 2);
    StepsConcat(d, head, w);
    PayloadRuns(o, w);
    StepsConcat(d, head + w, [0x00]);
    StepsOne(m, 0x00);
    assert ABANDONED == head + w + [0x00];
    LiteralOne();
    WriteAllLays(o.c, o.f.Layout(), [0x01]);
    FirstByteFlips(o.c, m.c, o.f.Layout());
  }

  lemma FirstByteFlips(c0: Canvas, c: Canvas, s: Style)
    requires c0.Ok() && c.Ok() && s == Style(false, true, false) && Laid(c0, c, s, [0x01])
    ensures c.bw != c0.bw
  {
    BitFlips(c0.bw[0]);
    assert c0.g.Plane() >= 1 by { assert c0.g.stride * c0.g.height >= 1; }
    assert FirstPart(c0.g.Plane(), [0x01]) == [0x01];
  }

  lemma BitFlips(b: byte)
    ensures b ^ 0x01 != b
  {
  }
}
