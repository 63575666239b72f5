/**
 * One broadcast, nothing lost, copies with fewer hops handled first: the nodes that handle it are
 * exactly those within four hops of the originator, each once, and of those the ones it is
 * addressed to run the command. The fleet is shown to move as a wave moves.
 */
module MeshCoverage {
  import opened Bytes
  import opened Cmac
  import opened MeshFleet
  import opened MeshNode
  import opened MeshOnce
  import opened MeshPdu
  import opened MeshWave
  import opened Replay

  /** The broadcast under study: who sends what, under which number and key. */
  datatype Broadcast = Broadcast(o: nat, f: Fields, n: nat, key: bytes) {
    function Cmd(): Command { Command(f.opcode, f.payload) }
    function At(hops: nat): Label { Label(f.src, n, hops) }

    /** What a node that handles it runs. */
    function Runs(n: Node): seq<Command> { if Addressed(n, f) then [Cmd()] else [] }
  }

  /** Whom a PDU is for: everyone, one group, one node, and for any other type nobody. Who relays
      it does not depend on this. */
  predicate Addressed(n: Node, f: Fields) {
    f.dstType == DST_ALL || (f.dstType == DST_GROUP && f.dst == [n.group]) || (f.dstType == DST_ID && f.dst == n.id)
  }

  lemma AddressedIsForMe(n: Node, f: Fields)
    requires f.Ok()
    ensures ForMe(n.id, n.group, f) <==> Addressed(n, f)
  {
  }

  ghost function Pdu(b: Broadcast, hops: nat, c: Cipher): bytes
    requires IsCipher(c) && b.f.Ok()
  {
    Signed(c, b.key, TtlAt(hops), b.f)
  }

  /** Silence before the broadcast: the originator is about to use number n, and every other
      node would take it. */
  predicate Listens(s: Site, b: Broadcast) {
    && s.node.id != b.f.src && |s.node.rpl| == SLOTS
    && var k := Find(s.node.rpl, b.f.src, 0);
    k == SLOTS || Replay.Fresh(s.node.rpl[k], b.f.seqNo)
  }

  predicate Silent(fl: Fleet) {
    fl.air == [] && forall i :: 0 <= i < |fl.sites| ==> fl.sites[i].waiting == [] && fl.sites[i].node.tx == []
  }

  predicate Before(fl: Fleet, b: Broadcast) {
    && Silent(fl) && Ok(fl) && b.o < |fl.sites| && b.f.Ok()
    && b.f.src == fl.sites[b.o].node.id && b.n == fl.sites[b.o].next && b.f.seqNo == b.n % U16
    && forall i :: 0 <= i < |fl.sites| ==>
      Times(fl.sites[i].done, b.f.src, b.n) == 0 && (i != b.o ==> Listens(fl.sites[i], b))
  }

  // ---- a node during the broadcast, against the same node before it ----

  /** It has handled the PDU h hops out, run the command, and its relay is waiting or gone. */
  ghost predicate Handled(was: Site, s: Site, h: nat, b: Broadcast, c: Cipher)
    requires IsCipher(c) && b.f.Ok()
  {
    && h <= MAX_HOPS && s.done == was.done + [b.At(h)]
    && s.node.id == was.node.id && |s.node.rpl| == SLOTS && s.node.ran == was.node.ran + b.Runs(was.node)
    && ((s.waiting == [] && s.node.tx == [])
        || (h < MAX_HOPS && s.waiting == [b.At(h + 1)] && s.node.tx == [Pdu(b, h + 1, c)]))
  }

  function Level(was: Site, s: Site): int {
    if |s.done| <= |was.done| then -1 else s.done[|was.done|].hops
  }

  ghost predicate Follows(was: Site, s: Site, b: Broadcast, c: Cipher)
    requires IsCipher(c) && b.f.Ok()
  {
    if Level(was, s) < 0 then s == was else Handled(was, s, Level(was, s), b, c)
  }

  lemma HandledLevel(was: Site, s: Site, h: nat, b: Broadcast, c: Cipher)
    requires IsCipher(c) && b.f.Ok() && Handled(was, s, h, b, c)
    ensures Level(was, s) == h && Follows(was, s, b, c)
  {
    hide IsCipher, Pdu, Fields.Ok;
  }

  /** Delivering the PDU, from the air or to oneself. */
  lemma Delivers(was: Site, n: Node, h: nat, b: Broadcast, c: Cipher, s: Site)
    requires IsCipher(c) && b.f.Ok() && h <= MAX_HOPS
    requires was.waiting == [] && was.node.tx == []
    requires n == was.node.(rpl := n.rpl) && |n.rpl| == SLOTS
    requires |Pdu(b, h, c)| > 1 && Parse(Pdu(b, h, c)).Some?
    requires s.node == Deliver(n, Pdu(b, h, c), Parse(Pdu(b, h, c)).value)
    requires s.waiting == if Parse(Pdu(b, h, c)).value.ttl > 0 then Enqueue(was.waiting, b.At(h + 1)) else was.waiting
    requires s.done == was.done + [b.At(h)]
    ensures Handled(was, s, h, b, c)
    ensures h < MAX_HOPS ==> s.waiting != []
  {
    hide IsCipher, Parse, Signed, Body, MacOf, Fields.Ok, SetTtl;
    TtlCounts(h);
    AddressedIsForMe(was.node, b.f);
    hide Addressed, ForMe;
    ParseSigned(c, b.key, TtlAt(h), b.f);
    if h < MAX_HOPS { SetTtlResigns(c, b.key, TtlAt(h), TtlAt(h + 1), b.f); }
  }

  lemma PduParses(b: Broadcast, h: nat, c: Cipher)
    requires IsCipher(c) && b.f.Ok() && h <= MAX_HOPS
    ensures |Pdu(b, h, c)| > 1 && Parse(Pdu(b, h, c)).Some?
    ensures Parse(Pdu(b, h, c)).value.f == b.f && Parse(Pdu(b, h, c)).value.ttl == TtlAt(h)
    ensures Verifies(c, b.key, Pdu(b, h, c))
  {
    hide IsCipher, Parse, Signed, Body, MacOf, Fields.Ok, Verifies;
    TtlCounts(h);
    ParseSigned(c, b.key, TtlAt(h), b.f);
    VerifySigned(c, b.key, TtlAt(h), b.f);
    ParsedSize(Pdu(b, h, c));
  }

  lemma OriginatorHandles(was: Site, b: Broadcast, c: Cipher)
    requires IsCipher(c) && b.f.Ok() && |was.node.rpl| == SLOTS
    requires was.waiting == [] && was.node.tx == [] && was.node.id == b.f.src && was.next == b.n
    ensures Handled(was, Originated(was, Pdu(b, 0, c)), 0, b, c)
    ensures Originated(was, Pdu(b, 0, c)).waiting != []
  {
    hide IsCipher, Parse, Pdu, Fields.Ok, Deliver, Handled, Body, MacOf, Verifies;
    PduParses(b, 0, c);
    TtlCounts(0);
    Delivers(was, was.node, 0, b, c, Originated(was, Pdu(b, 0, c)));
  }

  /** A node that has not handled the broadcast takes the first copy that reaches it. */
  lemma FirstCopyHandled(was: Site, h: nat, mac: bool, now: nat, b: Broadcast, c: Cipher)
    requires IsCipher(c) && b.f.Ok() && h <= MAX_HOPS
    requires was.waiting == [] && was.node.tx == [] && Listens(was, b) && b.f.seqNo == b.n % U16
    requires mac == Verifies(c, b.key, Pdu(b, h, c))
    ensures var s := Arrived(was, Pdu(b, h, c), b.At(h), mac, now);
      Handled(was, s, h, b, c) && (h < MAX_HOPS <==> s.waiting != [])
  {
    hide IsCipher, Parse, Pdu, Fields.Ok, Deliver, Verifies, Commit, Replay.Fresh;
    PduParses(b, h, c);
    TtlCounts(h);
    var r := was.node.rpl;
    Delivers(was, was.node.(rpl := Commit(r, b.f.src, b.f.seqNo, now)), h, b, c,
      Arrived(was, Pdu(b, h, c), b.At(h), mac, now));
  }

  /** One that has handled it takes no further copy. */
  lemma LaterCopyDropped(was: Site, s: Site, h: nat, mac: bool, now: nat, b: Broadcast, c: Cipher)
    requires IsCipher(c) && b.f.Ok() && h <= MAX_HOPS && b.f.seqNo == b.n % U16
    requires Level(was, s) >= 0 && Follows(was, s, b, c) && Genuine(Pdu(b, h, c), b.At(h))
    requires Inv(s, b.f.src, b.n) && Steady(s, Pdu(b, h, c), b.At(h), mac, now, b.f.src)
    ensures Arrived(s, Pdu(b, h, c), b.At(h), mac, now) == s
  {
    hide IsCipher, Parse, Pdu, Fields.Ok, Hear, Check, Unique, Remembers, Numbers, Genuine, Steady;
    var l := b.At(h);
    if Admits(s.node, Pdu(b, h, c), mac, now) {
      ArrivedKeeps(s, Pdu(b, h, c), l, mac, now, b.f.src, b.n);
      TimesGrows(was.done, b.At(Level(was, s)), b.f.src, b.n);
      TimesGrows(s.done, l, b.f.src, b.n);
    }
  }

  // ---- the fleet moves as a wave ----

  /** The wave a fleet is, during the broadcast. */
  ghost function Seen(was: Fleet, fl: Fleet): (w: Wave)
    requires |was.sites| == |fl.sites|
    ensures |w.level| == |w.ring| == |fl.sites| && |w.air| == |fl.air|
  {
    Wave(seq(|fl.sites|, i requires 0 <= i < |fl.sites| => Level(was.sites[i], fl.sites[i])),
         seq(|fl.sites|, i requires 0 <= i < |fl.sites| => fl.sites[i].waiting != []),
         seq(|fl.air|, k requires 0 <= k < |fl.air| => Hop(fl.air[k].to, fl.air[k].tag.hops)))
  }

  ghost predicate CopyFollows(copy: Copy, b: Broadcast, c: Cipher)
    requires IsCipher(c) && b.f.Ok()
  {
    copy.tag == b.At(copy.tag.hops) && copy.tag.hops <= MAX_HOPS && copy.pdu == Pdu(b, copy.tag.hops, c)
  }

  ghost predicate Tracks(was: Fleet, fl: Fleet, b: Broadcast, c: Cipher)
    requires IsCipher(c) && b.f.Ok()
  {
    && |was.sites| == |fl.sites|
    && (forall i :: 0 <= i < |fl.sites| ==> Follows(was.sites[i], fl.sites[i], b, c))
    && (b.o < |fl.sites| && Level(was.sites[b.o], fl.sites[b.o]) >= 0)
    && forall k :: 0 <= k < |fl.air| ==> CopyFollows(fl.air[k], b, c)
  }

  /** No loss, every neighbour hears, no cipher call fails, fewer hops first. */
  ghost predicate Orderly(fl: Fleet, e: Event, g: Graph, b: Broadcast, c: Cipher)
    requires IsCipher(c) && Ok(fl) && Enabled(fl, e)
  {
    match e
    case Transmit(i, hearers) => i < |g| && hearers == g[i]
    case Arrive(k, mac, _) =>
      && mac == Verifies(c, b.key, fl.air[k].pdu)
      && (forall j :: 0 <= j < |fl.air| ==> fl.air[k].tag.hops <= fl.air[j].tag.hops)
      && forall i :: 0 <= i < |fl.sites| && fl.sites[i].waiting != [] ==>
        fl.air[k].tag.hops <= fl.sites[i].waiting[0].hops
    case _ => false
  }

  function MoveOf(e: Event): Move
    requires e.Transmit? || e.Arrive?
  {
    if e.Transmit? then Relay(e.at) else Reach(e.copy)
  }

  lemma WaitingIsNext(was: Site, s: Site, b: Broadcast, c: Cipher)
    requires IsCipher(c) && b.f.Ok() && Follows(was, s, b, c) && was.waiting == [] && s.waiting != []
    ensures 0 <= Level(was, s) < MAX_HOPS && s.waiting == [b.At(Level(was, s) + 1)]
    ensures s.node.tx == [Pdu(b, Level(was, s) + 1, c)]
  {
    hide IsCipher, Pdu, Fields.Ok;
  }

  lemma TransmitFollows(was: Site, s: Site, b: Broadcast, c: Cipher)
    requires IsCipher(c) && b.f.Ok() && Follows(was, s, b, c)
    requires was.waiting == [] && was.node.tx == [] && s.waiting != []
    ensures s.node.tx != [] && Follows(was, Transmitted(s), b, c)
    ensures Transmitted(s).waiting == [] && Level(was, Transmitted(s)) == Level(was, s)
  {
    hide IsCipher, Pdu, Fields.Ok;
    WaitingIsNext(was, s, b, c);
  }

  lemma ShapedSize(w: Wave, g: Graph)
    requires Shaped(w, g)
    ensures |w.level| == |w.ring| == |g|
  {
  }

  /** One orderly step of the fleet is one move of its wave. */
  lemma TransmitMoves(was: Fleet, fl: Fleet, i: nat, hearers: seq<nat>, g: Graph, b: Broadcast, c: Cipher)
    requires IsCipher(c) && Before(was, b) && Ok(fl) && Tracks(was, fl, b, c) && Shaped(Seen(was, fl), g)
    requires Enabled(fl, Transmit(i, hearers)) && hearers == g[i]
    ensures var fl' := Step(fl, Transmit(i, hearers), c, b.key);
      && Tracks(was, fl', b, c)
      && Possible(Seen(was, fl), g, Relay(i)) && Seen(was, fl') == Moved(Seen(was, fl), g, Relay(i))
  {
    hide IsCipher, Genuine, Pdu, Fields.Ok, Follows, Level, Shaped, Listens, Parse;
    var fl' := Step(fl, Transmit(i, hearers), c, b.key);
    SiteRing(fl.sites[i]);
    ShapedSize(Seen(was, fl), g);
    WaitingIsNext(was.sites[i], fl.sites[i], b, c);
    TransmitFollows(was.sites[i], fl.sites[i], b, c);
    assert Seen(was, fl').air == Moved(Seen(was, fl), g, Relay(i)).air;
    assert Seen(was, fl').level == Moved(Seen(was, fl), g, Relay(i)).level;
    assert Seen(was, fl').ring == Moved(Seen(was, fl), g, Relay(i)).ring;
  }

  /** What a copy does to the node it reaches. */
  lemma SiteArrives(was: Site, s: Site, h: nat, mac: bool, now: nat, b: Broadcast, c: Cipher)
    requires IsCipher(c) && b.f.Ok() && h <= MAX_HOPS && b.f.seqNo == b.n % U16
    requires Follows(was, s, b, c) && was.waiting == [] && was.node.tx == []
    requires Level(was, s) < 0 ==> Listens(was, b)
    requires mac == Verifies(c, b.key, Pdu(b, h, c)) && |s.node.rpl| == SLOTS
    requires Level(was, s) >= 0 ==>
      && Genuine(Pdu(b, h, c), b.At(h))
      && Inv(s, b.f.src, b.n) && Steady(s, Pdu(b, h, c), b.At(h), mac, now, b.f.src)
    ensures var s' := Arrived(s, Pdu(b, h, c), b.At(h), mac, now);
      && Follows(was, s', b, c)
      && Level(was, s') == (if Level(was, s) < 0 then h else Level(was, s))
      && (s'.waiting != [] <==> if Level(was, s) < 0 then h < MAX_HOPS else s.waiting != [])
  {
    hide IsCipher, Pdu, Fields.Ok, Genuine, Steady, Listens, Verifies, Parse, Arrived, Inv, Handled;
    if Level(was, s) < 0 {
      FirstCopyHandled(was, h, mac, now, b, c);
      HandledLevel(was, Arrived(s, Pdu(b, h, c), b.At(h), mac, now), h, b, c);
    } else {
      LaterCopyDropped(was, s, h, mac, now, b, c);
    }
  }

  /** What the step needs to know of the node a copy is about to reach. */
  lemma Reached(was: Fleet, fl: Fleet, k: nat, b: Broadcast, c: Cipher)
    requires IsCipher(c) && Before(was, b) && Ok(fl) && Tracks(was, fl, b, c) && k < |fl.air|
    ensures fl.air[k].to < |fl.sites| && fl.air[k].tag == b.At(fl.air[k].tag.hops)
    ensures fl.air[k].tag.hops <= MAX_HOPS && fl.air[k].pdu == Pdu(b, fl.air[k].tag.hops, c)
    ensures Genuine(fl.air[k].pdu, fl.air[k].tag)
    ensures b.f.Ok() && b.f.seqNo == b.n % U16
    ensures var w, s := was.sites[fl.air[k].to], fl.sites[fl.air[k].to];
      && Follows(w, s, b, c) && w.waiting == [] && w.node.tx == [] && |s.node.rpl| == SLOTS
      && (Level(w, s) < 0 ==> Listens(w, b))
  {
    hide IsCipher, Genuine, Pdu, Fields.Ok, Follows, Level, Listens, Parse;
    assert CopyOk(fl, fl.air[k]);
    SiteRing(fl.sites[fl.air[k].to]);
  }

  lemma ArriveMoves(was: Fleet, fl: Fleet, k: nat, mac: bool, now: nat, g: Graph, b: Broadcast, c: Cipher)
    requires IsCipher(c) && Before(was, b) && Ok(fl) && Tracks(was, fl, b, c) && Shaped(Seen(was, fl), g)
    requires Enabled(fl, Arrive(k, mac, now)) && Orderly(fl, Arrive(k, mac, now), g, b, c)
    requires FleetInv(fl, b.f.src, b.n) && SteadyStep(fl, Arrive(k, mac, now), b.f.src)
    ensures var fl' := Step(fl, Arrive(k, mac, now), c, b.key);
      && Tracks(was, fl', b, c)
      && Possible(Seen(was, fl), g, Reach(k)) && Seen(was, fl') == Moved(Seen(was, fl), g, Reach(k))
  {
    hide IsCipher, Genuine, Pdu, Fields.Ok, Follows, Level, Listens, Parse, Arrived, Inv, Steady, Shaped, Ok, Before;
    var fl', h, to := Step(fl, Arrive(k, mac, now), c, b.key), fl.air[k].tag.hops, fl.air[k].to;
    Reached(was, fl, k, b, c);
    SiteArrives(was.sites[to], fl.sites[to], h, mac, now, b, c);
    ShapedSize(Seen(was, fl), g);
    ArriveIsNext(was, fl, k, mac, now, g, b, c);
    var w, w' := Seen(was, fl), Seen(was, fl');
    assert w'.air == w.air[..k] + w.air[k + 1..];
    assert w'.level == Moved(w, g, Reach(k)).level;
    assert w'.ring == Moved(w, g, Reach(k)).ring;
  }

  lemma ArriveIsNext(was: Fleet, fl: Fleet, k: nat, mac: bool, now: nat, g: Graph, b: Broadcast, c: Cipher)
    requires IsCipher(c) && Before(was, b) && Ok(fl) && Tracks(was, fl, b, c) && Shaped(Seen(was, fl), g)
    requires Enabled(fl, Arrive(k, mac, now)) && Orderly(fl, Arrive(k, mac, now), g, b, c)
    ensures Possible(Seen(was, fl), g, Reach(k))
  {
    hide IsCipher, Genuine, Pdu, Fields.Ok, Follows, Level, Listens, Parse, Ok, Shaped;
    ShapedSize(Seen(was, fl), g);
    forall u | 0 <= u < |g| && fl.sites[u].waiting != []
      ensures fl.air[k].tag.hops <= Level(was.sites[u], fl.sites[u]) + 1
    {
      WaitingIsNext(was.sites[u], fl.sites[u], b, c);
    }
  }

  // ---- the whole broadcast ----

  ghost predicate OrderlyRun(fl: Fleet, es: seq<Event>, reach: nat, g: Graph, b: Broadcast, c: Cipher)
    requires IsCipher(c) && Ok(fl) && CanRun(fl, es, reach, c, b.key)
    decreases |es|
  {
    es == [] || (
      Orderly(fl, es[0], g, b, c) && (
        StepKeepsOk(fl, es[0], c, b.key);
        OrderlyRun(Step(fl, es[0], c, b.key), es[1..], reach, g, b, c)))
  }

  ghost predicate During(was: Fleet, fl: Fleet, g: Graph, b: Broadcast, c: Cipher)
    requires IsCipher(c) && Before(was, b)
  {
    Tracks(was, fl, b, c) && WaveInv(Seen(was, fl), g, b.o) && FleetInv(fl, b.f.src, b.n)
  }

  lemma DuringSize(was: Fleet, fl: Fleet, g: Graph, b: Broadcast, c: Cipher)
    requires IsCipher(c) && Before(was, b) && During(was, fl, g, b, c)
    ensures |was.sites| == |fl.sites|
  {
  }

  lemma {:induction false} RunKeepsWave(was: Fleet, fl: Fleet, es: seq<Event>, reach: nat, g: Graph,
                                       b: Broadcast, c: Cipher)
    requires IsCipher(c) && Before(was, b) && During(was, fl, g, b, c)
    requires Ok(fl) && CanRun(fl, es, reach, c, b.key) && OrderlyRun(fl, es, reach, g, b, c)
    requires SteadyRun(fl, es, reach, b.f.src, c, b.key)
    ensures During(was, Run(fl, es, reach, c, b.key), g, b, c)
    decreases |es|
  {
    hide IsCipher, Before, Tracks, Step, FleetInv, SteadyStep, Enabled, Ok, Shaped, Sound, Ordered, Closed, Seen;
    if es != [] {
      var e, fl' := es[0], Step(fl, es[0], c, b.key);
      match e {
        case Transmit(i, hearers) => TransmitMoves(was, fl, i, hearers, g, b, c);
        case Arrive(k, mac, now) => ArriveMoves(was, fl, k, mac, now, g, b, c);
      }
      StepKeepsInv(fl, e, c, b.key, b.f.src, b.n);
      StepKeepsOk(fl, e, c, b.key);
      DuringSize(was, fl, g, b, c);
      MoveKeepsInv(Seen(was, fl), g, b.o, MoveOf(e));
      RunKeepsWave(was, fl', es[1..], reach, g, b, c);
    }
  }

  lemma OriginatorFollows(s: Site, b: Broadcast, c: Cipher)
    requires IsCipher(c) && b.f.Ok() && |s.node.rpl| == SLOTS
    requires s.waiting == [] && s.node.tx == [] && s.node.id == b.f.src && s.next == b.n
    ensures var s' := Originated(s, Signed(c, b.key, TTL_DEFAULT, b.f));
      Level(s, s') == 0 && Follows(s, s', b, c) && s'.waiting != []
  {
    hide IsCipher, Fields.Ok, Pdu, Handled, Originated, Parse, Signed;
    PduIs(b, c);
    OriginatorHandles(s, b, c);
    HandledLevel(s, Originated(s, Pdu(b, 0, c)), 0, b, c);
  }

  lemma BroadcastStarts(was: Fleet, g: Graph, b: Broadcast, c: Cipher)
    requires IsCipher(c) && Before(was, b) && IsGraph(g) && |g| == |was.sites|
    requires FleetInv(was, b.f.src, b.n)
    ensures Enabled(was, Originate(b.o, b.f))
    ensures During(was, Step(was, Originate(b.o, b.f), c, b.key), g, b, c)
  {
    hide IsCipher, Fields.Ok, Pdu, Handled, Originated, Genuine, Listens, Parse, Inv, WaveInv, Times, Signed;
    var s, fl := was.sites[b.o], Step(was, Originate(b.o, b.f), c, b.key);
    SiteRing(s);
    OriginatorFollows(s, b, c);
    StartInv(g, b.o);
    StepKeepsInv(was, Originate(b.o, b.f), c, b.key, b.f.src, b.n);
    assert Seen(was, fl).level == Start(|g|, b.o).level;
    assert Seen(was, fl).ring == Start(|g|, b.o).ring;
  }

  lemma PduIs(b: Broadcast, c: Cipher)
    requires IsCipher(c) && b.f.Ok()
    ensures Pdu(b, 0, c) == Signed(c, b.key, TTL_DEFAULT, b.f)
  {
    hide IsCipher, Signed, Fields.Ok;
  }

  lemma SilentSeen(was: Fleet, fl: Fleet)
    requires |was.sites| == |fl.sites| && Silent(fl)
    ensures Quiet(Seen(was, fl))
  {
  }

  /** However the copies of one broadcast are delivered, when the fleet is silent again every node
      within four hops has handled it exactly once, and run the command if it is addressed to it;
      every other node is as it was. */
  lemma Coverage(was: Fleet, es: seq<Event>, reach: nat, g: Graph, b: Broadcast, c: Cipher, u: nat)
    requires IsCipher(c) && Before(was, b) && IsGraph(g) && |g| == |was.sites|
    requires FleetInv(was, b.f.src, b.n) && Enabled(was, Originate(b.o, b.f))
    requires var fl := Step(was, Originate(b.o, b.f), c, b.key);
      && Ok(fl) && CanRun(fl, es, reach, c, b.key) && OrderlyRun(fl, es, reach, g, b, c)
      && SteadyRun(fl, es, reach, b.f.src, c, b.key)
    ensures var end := Run(Step(was, Originate(b.o, b.f), c, b.key), es, reach, c, b.key);
      Silent(end) && u < |g| ==>
        && |end.sites| == |g|
        && (Within(g, b.o, u, MAX_HOPS) ==>
              && end.sites[u].node.ran == was.sites[u].node.ran + b.Runs(was.sites[u].node)
              && Times(end.sites[u].done, b.f.src, b.n) == 1)
        && (!Within(g, b.o, u, MAX_HOPS) ==> end.sites[u] == was.sites[u])
  {
    hide IsCipher, Ok, Listens, Times, Step, Run, CanRun, OrderlyRun, SteadyRun, FleetInv, Enabled,
      WaveInv, Within, Quiet, Silent;
    var fl := Step(was, Originate(b.o, b.f), c, b.key);
    BroadcastStarts(was, g, b, c);
    RunKeepsWave(was, fl, es, reach, g, b, c);
    var end := Run(fl, es, reach, c, b.key);
    if Silent(end) && u < |g| {
      DuringSize(was, end, g, b, c);
      SilentSeen(was, end);
      QuietMeansCovered(Seen(was, end), g, b.o, u);
      EndOfSite(was, end, b, c, u);
    }
  }

  lemma EndOfSite(was: Fleet, end: Fleet, b: Broadcast, c: Cipher, u: nat)
    requires IsCipher(c) && Before(was, b) && Tracks(was, end, b, c) && u < |was.sites|
    ensures Level(was.sites[u], end.sites[u]) >= 0 ==>
      && end.sites[u].node.ran == was.sites[u].node.ran + b.Runs(was.sites[u].node)
      && Times(end.sites[u].done, b.f.src, b.n) == 1
    ensures Level(was.sites[u], end.sites[u]) < 0 ==> end.sites[u] == was.sites[u]
  {
    hide IsCipher, Pdu, Fields.Ok, Listens, Genuine, Parse, Times;
    if Level(was.sites[u], end.sites[u]) >= 0 {
      TimesGrows(was.sites[u].done, b.At(Level(was.sites[u], end.sites[u])), b.f.src, b.n);
    }
  }
}
