/**
 * The host end of the video stream: how a frame becomes a keyframe or a delta, and the
 * session that counts credits and remembers that the device asked for a keyframe.
 */
module VideoHost {
  import opened Bytes
  import opened PackBits
  import opened Raster
  import opened Framebuffer
  import opened VideoDevice
  import opened VideoPacket

  datatype Encoding = EncRaw | EncRle | EncDrle

  /** What is fixed for a stream: encoding, planes, resolution, CRC, the number of frames that
      may be in flight, and when a keyframe is due or cheap enough. */
  datatype Config = Config(g: Geometry, enc: Encoding, dual: bool, half: bool, useCrc: bool,
                           window: nat, interval: nat, slack: int) {
    predicate Ok() { g.Fits() && g.Even() && window >= 1 }

    function KeyStyle(): Style { Style(dual, false, half) }
  }

  predicate IsFrame(cfg: Config, pic: bytes) { IsPicture(cfg.g, cfg.KeyStyle(), pic) }

  datatype Sent = Sent(frame: bytes, typ: byte, payload: bytes, isKey: bool)

  function RawType(dual: bool): byte { if dual then TYPE_RAW2 else TYPE_RAW }
  function RleType(dual: bool): byte { if dual then TYPE_RLE2 else TYPE_RLE }
  function DrleType(dual: bool): byte { if dual then TYPE_DRLE2 else TYPE_DRLE }

  /** encode_frame: a keyframe when forced or when it is no larger than the delta plus the
      slack, the exclusive or with the previous frame otherwise. */
  function EncodeFrame(cfg: Config, frame: bytes, prev: Option<bytes>, forceKey: bool): Sent {
    if cfg.enc == EncRaw then Sent(frame, RawType(cfg.dual), frame, true)
    else if cfg.enc == EncRle || prev.None? || forceKey then
      Sent(frame, RleType(cfg.dual), Pack(frame), true)
    else
      var dpay := Pack(Xor(frame, prev.value));
      var fpay := Pack(frame);
      if |fpay| <= |dpay| + cfg.slack then Sent(frame, RleType(cfg.dual), fpay, true)
      else Sent(frame, DrleType(cfg.dual), dpay, false)
  }

  /** What a device that follows the format gets back out of a sent frame. */
  predicate Carries(cfg: Config, f: Sent, prev: Option<bytes>) {
    && f.typ <= TYPE_DRLE2
    && IsDual(f.typ) == cfg.dual
    && IsDelta(f.typ) == !f.isKey
    && |f.payload| < 0x1_0000
    && (f.isKey ==> Decoded(f.typ, f.payload) == f.frame)
    && (!f.isKey ==> prev.Some? && Decoded(f.typ, f.payload) == Xor(f.frame, prev.value))
  }

  lemma PackFits(cfg: Config, pic: bytes)
    requires cfg.Ok() && |pic| <= MaxDec(cfg.g, cfg.KeyStyle())
    ensures |Pack(pic)| < 0x1_0000
  {
    PackSize(pic);
    assert |pic| <= 2 * ARENA_BYTES;
  }

  /** Whatever the host chooses, the payload decodes to the frame or to its delta. */
  lemma EncodeFrameCarries(cfg: Config, frame: bytes, prev: Option<bytes>, forceKey: bool)
    requires cfg.Ok() && IsFrame(cfg, frame)
    requires prev.Some? ==> IsFrame(cfg, prev.value)
    ensures Carries(cfg, EncodeFrame(cfg, frame, prev, forceKey), prev)
  {
    hide Pack, Expand;
    RoundTrip(frame);
    PackFits(cfg, frame);
    if prev.Some? {
      RoundTrip(Xor(frame, prev.value));
      PackFits(cfg, Xor(frame, prev.value));
    }
    assert |frame| <= 2 * ARENA_BYTES;
  }

  /** Of the two payloads the one that goes out is the keyframe exactly when it costs no more than
      the slack above the delta: so the payload is never larger than either, but for the slack. */
  lemma CheaperPayload(cfg: Config, frame: bytes, prev: bytes)
    requires cfg.enc == EncDrle
    ensures var f, key, delta := EncodeFrame(cfg, frame, Some(prev), false), Pack(frame), Pack(Xor(frame, prev));
      && (f.isKey <==> |key| <= |delta| + cfg.slack)
      && f.payload == (if f.isKey then key else delta)
      && (cfg.slack >= 0 ==> |f.payload| <= |key| && |f.payload| <= |delta| + cfg.slack)
  {
    hide Pack;
  }

  /** Which encoding the type byte announces; without deltas every frame is a keyframe. */
  lemma SentType(cfg: Config, frame: bytes, prev: Option<bytes>, forceKey: bool)
    ensures var f := EncodeFrame(cfg, frame, prev, forceKey);
      && f.typ as int == (if cfg.dual then 3 else 0) + (if cfg.enc == EncRaw then 0 else if f.isKey then 1 else 2)
      && (cfg.enc != EncDrle || prev.None? || forceKey ==> f.isKey)
      && f.frame == frame
  {
    hide Pack;
  }

  lemma XorSelf(a: bytes)
    ensures Xor(a, a) == Repeat(0, |a|)
  {
    forall k | 0 <= k < |a| ensures a[k] ^ a[k] == 0 { XorSame(a[k]); }
  }

  lemma XorSame(b: byte)
    ensures b ^ b == 0
  {
  }

  /** A picture that does not change costs next to nothing, and so does one of a single byte
      value, whatever was shown before. */
  lemma StillPictureIsCheap(cfg: Config, frame: bytes, prev: bytes, v: byte)
    requires cfg.enc == EncDrle && cfg.slack >= 0
    requires frame == prev || frame == Repeat(v, |frame|)
    ensures |EncodeFrame(cfg, frame, Some(prev), false).payload| <= RunCost(|frame|) + cfg.slack
  {
    hide EncodeFrame, Pack, RunCost;
    CheaperPayload(cfg, frame, prev);
    if frame == prev {
      XorSelf(frame);
      RepeatSize(0, |frame|);
    } else {
      RepeatSize(v, |frame|);
    }
  }

  // ---- the session ----

  /** play_guaranteed's loop variables and the session fields it drives. */
  datatype Host = Host(prev: Option<bytes>, sinceKey: nat, credits: nat, resync: bool)

  /** Whether the next frame must be a keyframe; asking clears the device's request. */
  function Force(cfg: Config, h: Host): bool {
    h.prev.None? || h.resync || (cfg.interval != 0 && h.sinceKey >= cfg.interval)
  }

  function TakeResync(h: Host): Host { if h.prev.None? then h else h.(resync := false) }

  /** The frame has gone out: it is what the next delta is taken against. */
  function AfterSend(h: Host, f: Sent): Host
    requires h.credits > 0
  {
    h.(prev := Some(f.frame), credits := h.credits - 1,
       sinceKey := if f.isKey then 0 else h.sinceKey + 1)
  }

  /** _on_ack: a credit comes back and a request for a keyframe is remembered. */
  function AfterAck(h: Host, ack: Ack): Host {
    h.(credits := h.credits + 1, resync := h.resync || ack.resync)
  }

  /** What became of handing a packet over: sent, still waiting for a credit, or given up. */
  datatype Handover = Handed | Waiting | TimedOut

  /** VStreamSession: the credits, the frames awaiting their acknowledgement in the order they
      were sent, and the device's request for a keyframe. */
  class VStreamSession {
    const window: nat
    var credits: nat
    var pending: seq<nat>
    var acked: nat
    var resync: bool
    var resyncCount: nat
    var dead: bool

    /** Every credit is either free or held by a frame in flight, and frames are numbered by
        their place in the stream. */
    ghost predicate Valid()
      reads this
    {
      && credits + |pending| == window
      && forall i :: 0 <= i < |pending| ==> pending[i] == acked + i + 1
    }

    constructor (window: nat)
      ensures Valid() && this.window == window && credits == window && !resync && acked == 0 && !dead
    {
      this.window := window;
      dead := false;
      credits, pending, acked, resync, resyncCount := window, [], 0, false, 0;
    }

    /** A stray acknowledgement, with nothing pending, still counts and still gives a credit. */
    method OnAck(ack: Ack) returns (frameNo: Option<nat>)
      modifies this`credits, this`pending, this`acked, this`resync, this`resyncCount
      ensures old(Valid()) && old(pending) != [] ==> Valid() && frameNo == Some(acked)
      ensures credits == old(credits) + 1 && acked == old(acked) + 1
      ensures pending == if old(pending) == [] then [] else old(pending)[1..]
      ensures resync == (old(resync) || ack.resync)
      ensures resyncCount == old(resyncCount) + if ack.resync then 1 else 0
    {
      frameNo := None;
      if pending != [] {
        frameNo := Some(pending[0]);
        pending := pending[1..];
      }
      if ack.resync {
        resync := true;
        resyncCount := resyncCount + 1;
      }
      acked := acked + 1;
      credits := credits + 1;
    }

    /** Read and clear the request. */
    method TakeResync() returns (r: bool)
      requires Valid()
      modifies this`resync
      ensures Valid() && r == old(resync) && !resync
    {
      if resync {
        resync := false;
        return true;
      }
      return false;
    }

    /** send(), looked at once: it goes on waiting until a credit is free or its time is up,
        and a session that has waited in vain is dead. */
    method TrySend(timeUp: bool) returns (r: Handover)
      requires Valid()
      modifies this`credits, this`pending, this`dead
      ensures Valid()
      ensures r == if old(credits) > 0 then Handed else if timeUp then TimedOut else Waiting
      ensures dead == (old(dead) || r == TimedOut)
      ensures r == Handed ==> credits == old(credits) - 1 && pending == old(pending) + [acked + |old(pending)| + 1]
      ensures r != Handed ==> credits == old(credits) && pending == old(pending)
    {
      if credits == 0 {
        if timeUp {
          dead := true;
          return TimedOut;
        }
        return Waiting;
      }
      credits := credits - 1;
      pending := pending + [acked + |pending| + 1];
      return Handed;
    }
  }

  /** play_guaranteed's loop body around a session. */
  class Player {
    const cfg: Config
    const session: VStreamSession
    var prev: Option<bytes>
    var sinceKey: nat

    ghost predicate Valid()
      reads this, session
    {
      && cfg.Ok() && session.Valid() && session.window == cfg.window
      && (prev.Some? ==> IsFrame(cfg, prev.value))
    }

    ghost function View(): Host
      reads this, session
    {
      Host(prev, sinceKey, session.credits, session.resync)
    }

    constructor (cfg: Config, session: VStreamSession)
      requires cfg.Ok() && session.Valid() && session.window == cfg.window
      ensures Valid() && this.cfg == cfg && this.session == session && prev == None && sinceKey == 0
    {
      this.cfg, this.session := cfg, session;
      prev, sinceKey := None, 0;
    }

    /** Decide whether to force a keyframe, and encode. */
    method EncodeNext(frame: bytes) returns (f: Sent)
      requires Valid() && IsFrame(cfg, frame)
      modifies session`resync
      ensures Valid() && View() == TakeResync(old(View()))
      ensures f == EncodeFrame(cfg, frame, prev, Force(cfg, old(View())))
    {
      var force := prev.None?;
      if !force {
        force := session.TakeResync();
      }
      force := force || (cfg.interval != 0 && sinceKey >= cfg.interval);
      if cfg.enc == EncRaw {
        return Sent(frame, RawType(cfg.dual), frame, true);
      }
      var fpay := PackbitsEncode(frame);
      if cfg.enc == EncRle || prev.None? || force {
        return Sent(frame, RleType(cfg.dual), fpay, true);
      }
      var dpay := PackbitsEncode(Xor(frame, prev.value));
      if |fpay| <= |dpay| + cfg.slack {
        return Sent(frame, RleType(cfg.dual), fpay, true);
      }
      return Sent(frame, DrleType(cfg.dual), dpay, false);
    }

    /** Hand the packet to the session; only then does the frame become the one to take the
        next delta against. */
    method SendEncoded(f: Sent, timeUp: bool) returns (r: Handover)
      requires Valid() && IsFrame(cfg, f.frame)
      modifies this`prev, this`sinceKey, session`credits, session`pending, session`dead
      ensures Valid() && (r == Handed <==> old(View()).credits > 0)
      ensures View() == if r == Handed then AfterSend(old(View()), f) else old(View())
      ensures session.dead == (old(session.dead) || r == TimedOut)
    {
      r := session.TrySend(timeUp);
      if r == Handed {
        prev := Some(f.frame);
        sinceKey := if f.isKey then 0 else sinceKey + 1;
      }
    }

    method OnAck(ack: Ack)
      requires Valid() && session.pending != []
      modifies session
      ensures Valid() && View() == AfterAck(old(View()), ack)
    {
      var _ := session.OnAck(ack);
    }
  }
}
