/**
 * Host, link and device together. Each step of a run is one action of one party: the host
 * encodes a frame, sends it when it has a credit, the device receives the oldest packet in
 * flight (its payload or trailer possibly damaged), or the oldest acknowledgement returns.
 */
module VideoStream {
  import opened Bytes
  import opened Crc16
  import opened Framebuffer
  import opened PanelRam
  import opened VideoDevice
  import opened VideoPacket
  import opened VideoHost

  /** `log` holds every frame encoded, in order; the first `sent` are on the wire, the first
      `got` have reached the device, the acknowledgements of the first `acked` have returned.
      `bad` records which arrived damaged and `seen` how many frames had been encoded when
      each acknowledgement returned. */
  datatype System = System(cfg: Config, host: Host, dev: Device, log: seq<Sent>,
                           sent: nat, got: nat, acked: nat, bad: seq<bool>, seen: seq<nat>)

  datatype Event =
    | Encode(frame: bytes)
    | Send
    | Arrive(payload: bytes, trailer: Option<word>)
    | AckBack

  /** The device right after VSTREAM:start, the host before its first frame. */
  predicate Start(s: System) {
    && s.cfg.Ok()
    && s.dev.Ok() && s.dev.c.g == s.cfg.g
    && s.dev.st == Idle && s.dev.active && !s.dev.poisoned
    && s.dev.frames == 0 && s.dev.acks == [] && s.dev.panel.ram == s.dev.c.bw
    && !s.dev.panel.writeRed
    && s.host == Host(None, 0, s.cfg.window, false)
    && s.log == [] && s.sent == s.got == s.acked == 0 && s.bad == [] && s.seen == []
  }

  /** What the link may do to a packet: nothing, or damage of the same length that the CRC
      sees. Without a CRC only undamaged packets are considered. */
  predicate LinkDelivers(cfg: Config, f: Sent, payload: bytes, trailer: Option<word>) {
    && |payload| == |f.payload|
    && trailer.Some? == cfg.useCrc
    && (CrcFails(payload, trailer) || payload == f.payload)
  }

  predicate Enabled(s: System, e: Event) {
    match e
    case Encode(frame) => |s.log| == s.sent && IsFrame(s.cfg, frame)
    case Send => |s.log| == s.sent + 1 && s.host.credits > 0
    case Arrive(payload, trailer) =>
      s.got < s.sent <= |s.log| && LinkDelivers(s.cfg, s.log[s.got], payload, trailer)
    case AckBack => s.acked < |s.dev.acks|
  }

  function Next(s: System, e: Event): System
    requires Inv(s) && Enabled(s, e)
  {
    match e
    case Encode(frame) =>
      var f := EncodeFrame(s.cfg, frame, s.host.prev, Force(s.cfg, s.host));
      s.(log := s.log + [f], host := TakeResync(s.host))
    case Send =>
      s.(sent := s.sent + 1, host := AfterSend(s.host, s.log[s.sent]))
    case Arrive(payload, trailer) =>
      s.(got := s.got + 1,
         dev := Steps(s.dev, Packet(s.log[s.got].typ, s.cfg.half, payload, trailer)),
         bad := s.bad + [CrcFails(payload, trailer)])
    case AckBack =>
      s.(acked := s.acked + 1,
         host := AfterAck(s.host, s.dev.acks[s.acked]),
         seen := s.seen + [|s.log|])
  }

  // ---- the invariant ----

  predicate Counters(s: System) {
    && s.cfg.Ok()
    && s.acked <= s.got <= s.sent <= |s.log| <= s.sent + 1
    && |s.dev.acks| == s.got == |s.bad| && |s.seen| == s.acked
    && s.host.credits == s.cfg.window - (s.sent - s.acked)
    && s.host.prev == Before(s.log, s.sent)
  }

  function Before(log: seq<Sent>, i: nat): Option<bytes>
    requires i <= |log|
  {
    if i == 0 then None else Some(log[i - 1].frame)
  }

  /** Every frame decodes to its picture, or to its delta from the one before. */
  predicate Frames(s: System) {
    forall i :: 0 <= i < |s.log| ==>
      IsFrame(s.cfg, s.log[i].frame) && Carries(s.cfg, s.log[i], Before(s.log, i))
  }

  /** A shown two-plane frame has its red plane in the controller, unless the maintenance cycle
      took its update: that ends the streaming until the next frame, with an empty red plane. */
  predicate RedShown(d: Device) {
    d.panel.red == Some(if d.panel.streaming then d.c.RedPlane() else NoRed(d.c.g))
  }

  /** Unless poisoned, the framebuffer shows the last frame that arrived and the controller
      RAM is the framebuffer; the last acknowledgement told the host which it is. */
  predicate Screen(s: System)
    requires Counters(s)
  {
    && s.dev.Ok() && s.dev.c.g == s.cfg.g && s.dev.st == Idle && s.dev.active
    && Mirror(s.dev)
    && (s.got == 0 ==> !s.dev.poisoned)
    && (s.got > 0 ==> s.dev.acks[s.got - 1].resync == s.dev.poisoned)
    && (s.got > 0 && !s.dev.poisoned ==> Shows(s.dev.c, s.cfg.KeyStyle(), s.log[s.got - 1].frame))
    && (s.got > 0 && !s.dev.poisoned && s.cfg.dual ==> RedShown(s.dev))
  }

  /** A frame is held back exactly when it is damaged, or is a delta on a held-back one. */
  predicate Verdicts(s: System)
    requires Counters(s)
  {
    forall i :: 0 <= i < s.got ==> Verdict(s.log, s.dev.acks, s.bad, i)
  }

  predicate Verdict(log: seq<Sent>, acks: seq<Ack>, bad: seq<bool>, i: nat)
    requires i < |log| && i < |acks| && i < |bad|
  {
    acks[i].resync <==> bad[i] || (!log[i].isKey && i > 0 && acks[i - 1].resync)
  }

  /** A request for a keyframe is answered by the very next frame the host encodes, and
      reaches it while at most `window` frames beyond the one it is about have gone out. */
  predicate Requests(s: System)
    requires Counters(s)
  {
    forall i :: 0 <= i < s.acked ==>
      && i < s.seen[i] <= i + s.cfg.window + 1 && s.seen[i] <= |s.log|
      && (s.dev.acks[i].resync ==>
            if s.seen[i] == |s.log| then s.host.resync else s.log[s.seen[i]].isKey)
  }

  predicate DeltasOnly(log: seq<Sent>, a: nat, b: nat)
    requires a <= b <= |log|
  {
    forall i :: a <= i < b ==> !log[i].isKey
  }

  /** since_key counts the deltas sent since the last keyframe, and no stretch of deltas is
      longer than the interval. */
  predicate Spacing(s: System)
    requires Counters(s)
  {
    && s.host.sinceKey <= s.sent
    && (s.host.sinceKey < s.sent ==> s.log[s.sent - 1 - s.host.sinceKey].isKey)
    && (s.cfg.interval > 0 ==>
          forall a, b :: 0 <= a <= b <= |s.log| && DeltasOnly(s.log, a, b) ==> b - a <= s.cfg.interval)
  }

  predicate Inv(s: System) {
    Counters(s) && Frames(s) && Screen(s) && Verdicts(s) && Requests(s) && Spacing(s)
  }

  lemma StartInv(s: System)
    requires Start(s)
    ensures Inv(s)
  {
    hide Mirror, Shows, Carries;
    assert Mirror(s.dev) by { MirrorStart(s.dev); }
  }

  lemma MirrorStart(d: Device)
    requires d.Ok() && d.st == Idle && d.panel.ram == d.c.bw && !d.panel.writeRed
    ensures Mirror(d)
  {
  }

  // ---- the host encodes a frame ----

  lemma ForcedIsKey(cfg: Config, frame: bytes, h: Host)
    requires Force(cfg, h)
    ensures EncodeFrame(cfg, frame, h.prev, true).isKey
  {
  }

  lemma EncodeFrames(s: System, frame: bytes)
    requires Inv(s) && Enabled(s, Encode(frame))
    ensures Frames(Next(s, Encode(frame)))
  {
    hide Carries, EncodeFrame, IsFrame, Screen, Verdicts, Requests, Spacing;
    var s' := Next(s, Encode(frame));
    EncodedFrame(s.cfg, frame, s.host.prev, Force(s.cfg, s.host));
    forall i | 0 <= i < |s'.log|
      ensures IsFrame(s'.cfg, s'.log[i].frame) && Carries(s'.cfg, s'.log[i], Before(s'.log, i))
    {
      assert Before(s'.log, i) == Before(s.log, i);
      if i < |s.log| { assert s'.log[i] == s.log[i]; }
    }
  }

  lemma EncodedFrame(cfg: Config, frame: bytes, prev: Option<bytes>, force: bool)
    requires cfg.Ok() && IsFrame(cfg, frame) && (prev.Some? ==> IsFrame(cfg, prev.value))
    ensures var f := EncodeFrame(cfg, frame, prev, force); f.frame == frame && Carries(cfg, f, prev)
  {
    hide Carries, IsFrame;
    EncodeFrameCarries(cfg, frame, prev, force);
  }

  lemma EncodeRequests(s: System, frame: bytes)
    requires Inv(s) && Enabled(s, Encode(frame))
    ensures Counters(Next(s, Encode(frame))) && Requests(Next(s, Encode(frame)))
  {
    hide EncodeFrame, Frames, Screen, Verdicts, Spacing;
    if Force(s.cfg, s.host) { ForcedIsKey(s.cfg, frame, s.host); }
  }

  lemma EncodeSpacing(s: System, frame: bytes)
    requires Inv(s) && Enabled(s, Encode(frame)) && Counters(Next(s, Encode(frame)))
    ensures Spacing(Next(s, Encode(frame)))
  {
    hide EncodeFrame, Frames, Screen, Verdicts, Requests, Before;
    var s' := Next(s, Encode(frame));
    if Force(s.cfg, s.host) { ForcedIsKey(s.cfg, frame, s.host); }
    if s.cfg.interval > 0 {
      forall a, b | 0 <= a <= b <= |s'.log| && DeltasOnly(s'.log, a, b)
        ensures b - a <= s.cfg.interval
      {
        DeltasBefore(s.log, s'.log, a, b);
        if |s.log| < b && a < |s.log| {
          assert !s'.log[|s.log|].isKey;
          assert a > |s.log| - 1 - s.host.sinceKey;
        }
      }
    }
  }

  lemma DeltasBefore(log: seq<Sent>, log': seq<Sent>, a: nat, b: nat)
    requires log <= log' && a <= b <= |log'| && DeltasOnly(log', a, b)
    ensures a <= |log| ==> DeltasOnly(log, a, if b <= |log| then b else |log|)
  {
  }

  lemma EncodeRest(s: System, frame: bytes)
    requires Inv(s) && Enabled(s, Encode(frame)) && Counters(Next(s, Encode(frame)))
    ensures Screen(Next(s, Encode(frame))) && Verdicts(Next(s, Encode(frame)))
  {
    hide EncodeFrame, Frames, Requests, Spacing, Mirror, Shows, Before;
    var s' := Next(s, Encode(frame));
    forall i | 0 <= i < s.got ensures Verdict(s'.log, s.dev.acks, s.bad, i) {
      assert Verdict(s.log, s.dev.acks, s.bad, i);
      assert s'.log[i] == s.log[i];
    }
  }

  lemma EncodeInv(s: System, frame: bytes)
    requires Inv(s) && Enabled(s, Encode(frame))
    ensures Inv(Next(s, Encode(frame)))
  {
    hide Next, Enabled, Counters, Frames, Screen, Verdicts, Requests, Spacing;
    EncodeFrames(s, frame);
    EncodeRequests(s, frame);
    EncodeSpacing(s, frame);
    EncodeRest(s, frame);
  }

  // ---- the frame goes out, an acknowledgement comes back ----

  lemma SendCounters(s: System)
    requires Inv(s) && Enabled(s, Send)
    ensures Counters(Next(s, Send)) && Spacing(Next(s, Send))
  {
    hide Frames, Screen, Verdicts, Requests;
  }

  lemma SendInv(s: System)
    requires Inv(s) && Enabled(s, Send)
    ensures Inv(Next(s, Send))
  {
    hide Carries, Mirror, Shows, IsFrame, Counters, Spacing;
    SendCounters(s);
  }

  lemma AckRequests(s: System)
    requires Inv(s) && Enabled(s, AckBack)
    ensures Counters(Next(s, AckBack)) && Requests(Next(s, AckBack))
  {
    hide Frames, Screen, Verdicts, Spacing;
    var s' := Next(s, AckBack);
    forall i | 0 <= i < s'.acked
      ensures i < s'.seen[i] <= i + s.cfg.window + 1 && s'.seen[i] <= |s.log|
      ensures s.dev.acks[i].resync ==>
        if s'.seen[i] == |s.log| then s'.host.resync else s.log[s'.seen[i]].isKey
    {
    }
  }

  lemma AckInv(s: System)
    requires Inv(s) && Enabled(s, AckBack)
    ensures Inv(Next(s, AckBack))
  {
    hide Carries, Mirror, Shows, IsFrame, Counters, Requests, DeltasOnly;
    AckRequests(s);
  }

  // ---- a packet reaches the device ----

  /** What the arrival of the oldest packet in flight does to the device. */
  lemma ArriveOutcome(s: System, payload: bytes, trailer: Option<word>)
    requires Inv(s) && Enabled(s, Arrive(payload, trailer))
    ensures
      var f, d := s.log[s.got], Next(s, Arrive(payload, trailer)).dev;
      && d.Ok() && d.c.g == s.cfg.g && d.st == Idle && d.active && Mirror(d)
      && Laid(Restart(s.dev.c), d.c, Layout(f.typ, s.cfg.half), Decoded(f.typ, payload))
      && d.poisoned == (CrcFails(payload, trailer) || (!f.isKey && s.dev.poisoned))
      && |d.acks| == s.got + 1 && d.acks[..s.got] == s.dev.acks && d.acks[s.got].resync == d.poisoned
      && (s.cfg.dual && !d.poisoned ==> RedShown(d))
  {
    hide Steps, Mirror, Shows, Laid, CrcFails, Decoded, Requests, Spacing, Verdicts;
    assert Carries(s.cfg, s.log[s.got], Before(s.log, s.got));
    PacketOutcome(s.dev, s.log[s.got].typ, s.cfg.half, payload, trailer);
    PacketMirrors(s.dev, s.log[s.got].typ, s.cfg.half, payload, trailer);
    PacketRed(s.dev, s.log[s.got].typ, s.cfg.half, payload, trailer);
  }

  lemma ArriveVerdicts(s: System, payload: bytes, trailer: Option<word>)
    requires Inv(s) && Enabled(s, Arrive(payload, trailer))
    ensures var s' := Next(s, Arrive(payload, trailer));
      Counters(s') && Verdicts(s')
  {
    hide Steps, Mirror, Shows, Laid, CrcFails, Decoded, DeltasOnly, Frames, IsFrame, Requests, Spacing;
    ArriveOutcome(s, payload, trailer);
    var s' := Next(s, Arrive(payload, trailer));
    assert forall i :: 0 <= i < s.got ==> s'.dev.acks[i] == s.dev.acks[i];
    forall i | 0 <= i < s'.got ensures Verdict(s'.log, s'.dev.acks, s'.bad, i) {
      if i < s.got { assert Verdict(s.log, s.dev.acks, s.bad, i); }
    }
  }

  lemma ArriveSpacing(s: System, payload: bytes, trailer: Option<word>)
    requires Inv(s) && Enabled(s, Arrive(payload, trailer))
    ensures var s' := Next(s, Arrive(payload, trailer));
      Counters(s') && Requests(s') && Spacing(s')
  {
    hide Steps, Mirror, Shows, Laid, CrcFails, Decoded, DeltasOnly, Frames, IsFrame, Verdicts;
    ArriveOutcome(s, payload, trailer);
    var s' := Next(s, Arrive(payload, trailer));
    assert forall i :: 0 <= i < s.got ==> s'.dev.acks[i] == s.dev.acks[i];
  }

  /** A clean packet on a clean stream puts exactly its frame on the framebuffer. */
  lemma ArriveShows(s: System, payload: bytes, trailer: Option<word>)
    requires Inv(s) && Enabled(s, Arrive(payload, trailer))
    ensures var d := Next(s, Arrive(payload, trailer)).dev;
      !d.poisoned ==> Shows(d.c, s.cfg.KeyStyle(), s.log[s.got].frame)
  {
    hide Next, Mirror, Laid, CrcFails, Decoded, Requests, Spacing, Verdicts;
    ArriveOutcome(s, payload, trailer);
    var f, d := s.log[s.got], Next(s, Arrive(payload, trailer)).dev;
    assert IsFrame(s.cfg, f.frame) && Carries(s.cfg, f, Before(s.log, s.got));
    if !d.poisoned {
      FrameShows(s.cfg, s.dev.c, d.c, f, Before(s.log, s.got));
    }
  }

  lemma FrameShows(cfg: Config, c0: Canvas, c: Canvas, f: Sent, prev: Option<bytes>)
    requires cfg.Ok() && c0.Ok() && c.Ok() && c0.g == c.g == cfg.g
    requires IsFrame(cfg, f.frame) && Carries(cfg, f, prev)
    requires Laid(Restart(c0), c, Layout(f.typ, cfg.half), Decoded(f.typ, f.payload))
    requires !f.isKey ==> IsFrame(cfg, prev.value) && Shows(c0, cfg.KeyStyle(), prev.value)
    ensures Shows(c, cfg.KeyStyle(), f.frame)
  {
    hide Laid, Decoded, Shows;
    var st := Layout(f.typ, cfg.half);
    if f.isKey {
      KeyframeShows(Restart(c0), c, st, f.frame);
    } else {
      ShowsAnyway(c0, cfg.KeyStyle(), st, prev.value);
      DeltaShows(Restart(c0), c, st, prev.value, f.frame);
      ShowsAnyway(c, st, cfg.KeyStyle(), f.frame);
    }
  }

  /** What is shown does not depend on how it got there. */
  lemma ShowsAnyway(c: Canvas, s: Style, t: Style, pic: bytes)
    requires c.Takes(s) && s.dual == t.dual && s.half == t.half && Shows(c, s, pic)
    ensures Shows(c, t, pic) && Shows(Restart(c), t, pic)
  {
  }

  lemma ArriveInv(s: System, payload: bytes, trailer: Option<word>)
    requires Inv(s) && Enabled(s, Arrive(payload, trailer))
    ensures Inv(Next(s, Arrive(payload, trailer)))
  {
    hide Steps, Mirror, Shows, Laid, CrcFails, Decoded, Counters, Verdicts, Requests, Spacing, Carries, IsFrame;
    ArriveVerdicts(s, payload, trailer);
    ArriveSpacing(s, payload, trailer);
    ArriveOutcome(s, payload, trailer);
    ArriveShows(s, payload, trailer);
  }

  // ---- whole runs ----

  lemma NextInv(s: System, e: Event)
    requires Inv(s) && Enabled(s, e)
    ensures Inv(Next(s, e))
  {
    hide Inv, Next, Enabled;
    match e
    case Encode(frame) => EncodeInv(s, frame);
    case Send => SendInv(s);
    case Arrive(payload, trailer) => ArriveInv(s, payload, trailer);
    case AckBack => AckInv(s);
  }

  /** The state after any list of events in any order; one that is not possible when its turn
      comes does nothing. */
  function Run(s: System, es: seq<Event>): System
    requires Inv(s)
    decreases |es|
  {
    if es == [] then s
    else if Enabled(s, es[0]) then
      NextInv(s, es[0]);
      Run(Next(s, es[0]), es[1..])
    else Run(s, es[1..])
  }

  function RunFrom(s0: System, es: seq<Event>): System
    requires Start(s0)
  {
    StartInv(s0);
    Run(s0, es)
  }

  lemma NextKeepsConfig(s: System, e: Event)
    requires Inv(s) && Enabled(s, e)
    ensures Next(s, e).cfg == s.cfg
  {
    hide Inv;
  }

  lemma {:induction false} RunInv(s: System, es: seq<Event>)
    requires Inv(s)
    ensures Inv(Run(s, es)) && Run(s, es).cfg == s.cfg
    decreases |es|
  {
    hide Inv, Next, Enabled;
    if es == [] {
    } else if Enabled(s, es[0]) {
      NextInv(s, es[0]);
      NextKeepsConfig(s, es[0]);
      RunInv(Next(s, es[0]), es[1..]);
    } else {
      RunInv(s, es[1..]);
    }
  }

  lemma RunFromInv(s0: System, es: seq<Event>)
    requires Start(s0)
    ensures Inv(RunFrom(s0, es)) && RunFrom(s0, es).cfg == s0.cfg
  {
    hide Inv, Run;
    StartInv(s0);
    RunInv(s0, es);
  }

  /** Safety of the stream: whenever the device shows a frame, its framebuffer is exactly the
      picture of the frame the host encoded at that step, and so is the controller RAM, the red
      one too in a two-plane stream, but for the updates the maintenance cycle takes. */
  lemma ShownFrameIsTheEncodedFrame(s0: System, es: seq<Event>)
    requires Start(s0)
    ensures var s := RunFrom(s0, es);
      Inv(s) && (s.got > 0 && !s.dev.acks[s.got - 1].resync ==> (
        && Shows(s.dev.c, s.cfg.KeyStyle(), s.log[s.got - 1].frame)
        && s.dev.panel.ram == s.dev.c.bw
        && (s.cfg.dual ==> RedShown(s.dev))))
  {
    hide Steps, Shows, Frames, Verdicts, Requests, Spacing, RunFrom;
    RunFromInv(s0, es);
    assert Screen(RunFrom(s0, es));
  }

  /** Recovery: after a damaged frame c at most `window` deltas follow before a keyframe, and
      from that keyframe on, as long as nothing else is damaged, every frame is shown. */
  lemma RecoveryIsBounded(s0: System, es: seq<Event>, c: nat)
    requires Start(s0)
    ensures var s := RunFrom(s0, es);
      Inv(s) && (c < s.got && s.bad[c] ==> (
        && (|s.log| > c + s.cfg.window + 1 ==>
              exists k :: c < k <= c + s.cfg.window + 1 && s.log[k].isKey)
        && forall k, i :: c < k <= i < s.got && s.log[k].isKey && NoneBad(s.bad, c + 1, i + 1) ==>
          !s.dev.acks[i].resync))
  {
    hide RunFrom, Frames, Screen, Spacing;
    RunFromInv(s0, es);
    var s := RunFrom(s0, es);
    if c < s.got && s.bad[c] {
      if |s.log| > c + s.cfg.window + 1 {
        assert c < s.acked;
        assert Verdict(s.log, s.dev.acks, s.bad, c);
        assert s.log[s.seen[c]].isKey;
      }
      forall k, i | c < k <= i < s.got && s.log[k].isKey && NoneBad(s.bad, c + 1, i + 1)
        ensures !s.dev.acks[i].resync
      {
        ShownFrom(s, c, k, i);
      }
    }
  }

  predicate NoneBad(bad: seq<bool>, a: nat, b: nat)
    requires a <= b <= |bad|
  {
    forall j :: a <= j < b ==> !bad[j]
  }

  lemma {:induction false} ShownFrom(s: System, c: nat, k: nat, i: nat)
    requires Counters(s) && Verdicts(s) && c < k <= i < s.got
    requires s.log[k].isKey && NoneBad(s.bad, c + 1, i + 1)
    ensures !s.dev.acks[i].resync
    decreases i
  {
    assert Verdict(s.log, s.dev.acks, s.bad, i);
    if i > k {
      assert NoneBad(s.bad, c + 1, i);
      ShownFrom(s, c, k, i - 1);
    }
  }

  /** With a key interval set, no more than that many deltas ever lie between keyframes. */
  lemma KeyIntervalHolds(s0: System, es: seq<Event>, a: nat, b: nat)
    requires Start(s0) && s0.cfg.interval > 0
    ensures var s := RunFrom(s0, es);
      a <= b <= |s.log| && DeltasOnly(s.log, a, b) ==> b - a <= s0.cfg.interval
  {
    hide RunFrom, Frames, Screen, Verdicts, Requests;
    RunFromInv(s0, es);
    assert Spacing(RunFrom(s0, es));
  }

  /** The damage the CRC is there for is damage the link of this model may do. */
  lemma BurstIsCovered(cfg: Config, f: Sent, payload: bytes, k: nat)
    requires cfg.useCrc && |payload| == |f.payload|
    requires forall i :: 0 <= i < |payload| && i != k && i != k + 1 ==> payload[i] == f.payload[i]
    ensures LinkDelivers(cfg, f, payload, Some(Crc(f.payload)))
  {
    hide Crc;
    BurstAlwaysCaught(f.payload, payload, k);
  }
}
