/**
 * When the host sends a keyframe: over whole runs, exactly for the first frame, when the keyframe is
 * cheap, when the interval has passed, and when the device has asked for one since the last frame.
 */
module VideoKeys {
  import opened Bytes
  import opened PackBits
  import opened VideoDevice
  import opened VideoHost
  import opened VideoPacket
  import opened VideoStream

  /** The keyframe costs no more than the slack above the delta. */
  predicate Cheap(cfg: Config, log: seq<Sent>, i: nat)
    requires 0 < i < |log|
  {
    |Pack(log[i].frame)| <= |Pack(Xor(log[i].frame, log[i - 1].frame))| + cfg.slack
  }

  /** The last frames, as many as the key interval, were all deltas. */
  predicate Elapsed(cfg: Config, log: seq<Sent>, i: nat)
    requires i <= |log|
  {
    0 < cfg.interval <= i && DeltasOnly(log, i - cfg.interval, i)
  }

  /** A request for a keyframe came back after frame i - 1 was encoded and before frame i was. */
  predicate Asked(s: System, i: nat)
    requires Counters(s)
  {
    exists j :: 0 <= j < s.acked && s.seen[j] == i && s.dev.acks[j].resync
  }

  predicate Caused(s: System, i: nat)
    requires Counters(s) && i < |s.log|
  {
    i == 0 || Cheap(s.cfg, s.log, i) || Elapsed(s.cfg, s.log, i) || Asked(s, i)
  }

  /** The host's counter and its latch say what the causes say of the next frame. */
  predicate Latched(s: System)
    requires Counters(s)
  {
    && s.host.sinceKey <= s.sent && DeltasOnly(s.log, s.sent - s.host.sinceKey, s.sent)
    && (s.host.resync <==> Asked(s, |s.log|))
  }

  predicate KeysCaused(s: System)
    requires Counters(s)
  {
    s.cfg.enc == EncDrle ==> forall i :: 0 <= i < |s.log| ==> (s.log[i].isKey <==> Caused(s, i))
  }

  /** Growing the log, the acknowledgements or the times they were seen changes no cause of an
      earlier frame. */
  lemma CauseStays(s: System, s': System, i: nat)
    requires Counters(s) && Counters(s') && s'.cfg == s.cfg && i < |s.log|
    requires s.log <= s'.log && s.dev.acks <= s'.dev.acks && s.seen <= s'.seen
    requires forall j :: s.acked <= j < s'.acked ==> s'.seen[j] > i
    ensures Caused(s', i) <==> Caused(s, i)
  {
    hide Pack;
    assert forall k :: 0 <= k < |s.log| ==> s'.log[k] == s.log[k];
    if Asked(s, i) {
      var j :| 0 <= j < s.acked && s.seen[j] == i && s.dev.acks[j].resync;
      assert s'.seen[j] == i && s'.dev.acks[j].resync;
    }
  }

  lemma ForceIsCause(s: System)
    requires Inv(s) && Latched(s) && |s.log| == s.sent
    ensures Force(s.cfg, s.host) <==> s.sent == 0 || Elapsed(s.cfg, s.log, s.sent) || Asked(s, s.sent)
  {
    hide Frames, Screen, Verdicts, Requests;
  }

  lemma KeyChoice(cfg: Config, frame: bytes, prev: Option<bytes>, force: bool)
    requires cfg.enc == EncDrle
    ensures var f := EncodeFrame(cfg, frame, prev, force);
      && f.frame == frame
      && (f.isKey <==>
            force || prev.None? || |Pack(frame)| <= |Pack(Xor(frame, prev.value))| + cfg.slack)
  {
    hide Pack;
  }

  lemma NextCaused(s: System, frame: bytes)
    requires Inv(s) && Latched(s) && Enabled(s, Encode(frame)) && s.cfg.enc == EncDrle
    ensures var s' := Next(s, Encode(frame));
      Counters(s') && (s'.log[|s.log|].isKey <==> Caused(s', |s.log|))
  {
    hide Frames, Screen, Verdicts, Requests, Pack, Latched, Asked, Spacing, Elapsed, EncodeFrame, Force;
    var s' := Next(s, Encode(frame));
    ForceIsCause(s);
    ElapsedStays(s, s');
    KeyChoice(s.cfg, frame, s.host.prev, Force(s.cfg, s.host));
  }

  lemma EncodeCaused(s: System, frame: bytes)
    requires Inv(s) && Latched(s) && KeysCaused(s) && Enabled(s, Encode(frame))
    ensures var s' := Next(s, Encode(frame)); Counters(s') && KeysCaused(s')
  {
    hide Frames, Screen, Verdicts, Requests, Latched, Spacing, Caused, EncodeFrame, Force;
    var s' := Next(s, Encode(frame));
    if s.cfg.enc == EncDrle {
      NextCaused(s, frame);
      forall i | 0 <= i < |s.log| ensures Caused(s', i) <==> Caused(s, i) {
        CauseStays(s, s', i);
      }
    }
  }

  lemma ElapsedStays(s: System, s': System)
    requires Counters(s) && Counters(s') && s'.cfg == s.cfg && s.log <= s'.log && |s.log| <= |s'.log|
    requires s'.acked == s.acked && s'.seen == s.seen && s'.dev == s.dev
    ensures Elapsed(s'.cfg, s'.log, |s.log|) <==> Elapsed(s.cfg, s.log, |s.log|)
    ensures Asked(s', |s.log|) <==> Asked(s, |s.log|)
  {
    assert forall k :: 0 <= k < |s.log| ==> s'.log[k] == s.log[k];
  }

  lemma EncodeLatched(s: System, frame: bytes)
    requires Inv(s) && Latched(s) && Enabled(s, Encode(frame))
    ensures var s' := Next(s, Encode(frame)); Counters(s') && Latched(s')
  {
    hide Frames, Screen, Verdicts, Pack, EncodeFrame, Spacing;
  }

  lemma OthersCaused(s: System, e: Event)
    requires Inv(s) && Latched(s) && KeysCaused(s) && Enabled(s, e) && !e.Encode? && Inv(Next(s, e))
    ensures KeysCaused(Next(s, e))
  {
    hide Frames, Screen, Verdicts, Requests, Pack, Latched, Asked, Spacing, Caused;
    var s' := Next(s, e);
    ArriveGrows(s, e);
    forall i | 0 <= i < |s.log| ensures Caused(s', i) <==> Caused(s, i) {
      CauseStays(s, s', i);
    }
  }

  lemma ArriveGrows(s: System, e: Event)
    requires Inv(s) && Enabled(s, e)
    ensures s.dev.acks <= Next(s, e).dev.acks
  {
    hide Frames, Verdicts, Requests, Spacing, Steps, EncodeFrame, Packet;
    match e
    case Arrive(payload, trailer) => ArriveOutcome(s, payload, trailer);
    case _ =>
  }

  lemma OthersLatched(s: System, e: Event)
    requires Inv(s) && Latched(s) && Enabled(s, e) && !e.Encode? && Inv(Next(s, e))
    ensures Latched(Next(s, e))
  {
    hide Frames, Screen, Verdicts, Spacing, Steps, Packet, Pack;
    ArriveGrows(s, e);
    var s' := Next(s, e);
    if Asked(s, |s.log|) {
      var j :| 0 <= j < s.acked && s.seen[j] == |s.log| && s.dev.acks[j].resync;
      assert s'.seen[j] == |s'.log| && s'.dev.acks[j].resync;
    }
    if e.AckBack? && s.dev.acks[s.acked].resync {
      assert s'.seen[s.acked] == |s'.log|;
    }
  }

  lemma {:induction false} RunCaused(s: System, es: seq<Event>)
    requires Inv(s) && Latched(s) && KeysCaused(s)
    ensures Inv(Run(s, es)) && Latched(Run(s, es)) && KeysCaused(Run(s, es))
    decreases |es|
  {
    hide Inv, Next, Enabled, Latched, KeysCaused, Counters;
    if es == [] {
    } else if Enabled(s, es[0]) {
      NextInv(s, es[0]);
      match es[0] {
        case Encode(frame) => EncodeCaused(s, frame); EncodeLatched(s, frame);
        case _ => OthersCaused(s, es[0]); OthersLatched(s, es[0]);
      }
      RunCaused(Next(s, es[0]), es[1..]);
    } else {
      RunCaused(s, es[1..]);
    }
  }

  /** In every run of delta encoding a frame is a keyframe if and only if it is the first, or the
      keyframe is cheap, or the key interval has passed, or the device has just asked. */
  lemma KeysExactlyWhenCaused(s0: System, es: seq<Event>, i: nat)
    requires Start(s0) && s0.cfg.enc == EncDrle
    ensures var s := RunFrom(s0, es);
      Inv(s) && (i < |s.log| ==> (s.log[i].isKey <==> Caused(s, i)))
  {
    hide Caused, Inv, Run;
    StartInv(s0);
    assert Latched(s0) && KeysCaused(s0);
    RunCaused(s0, es);
    RunFromInv(s0, es);
  }
}
