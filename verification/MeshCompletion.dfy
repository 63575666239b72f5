/**
 * A broadcast does complete: from a source nobody has heard before there is always a next
 * orderly event until the fleet is silent, so the runs that coverage speaks of exist on every
 * graph.
 */
module MeshCompletion {
  import opened Bytes
  import opened Cmac
  import opened MeshCoverage
  import opened MeshFleet
  import opened MeshOnce
  import opened MeshPdu
  import opened MeshWave
  import opened Replay

  /** No other node has handled anything of the originator. */
  ghost predicate Unknown(was: Fleet, b: Broadcast) {
    forall i :: 0 <= i < |was.sites| && i != b.o ==> Numbers(was.sites[i].done, b.f.src) == iset{}
  }

  /** A moment at which the entry of a source, if there is one, has not expired. */
  function Moment(r: seq<Ent>, src: bytes): nat {
    if Find(r, src, 0) < |r| then r[Find(r, src, 0)].lastS else 0
  }

  lemma MomentIsLive(r: seq<Ent>, src: bytes)
    requires Find(r, src, 0) < |r|
    ensures !Expired(r[Find(r, src, 0)], Moment(r, src))
  {
  }

  /** What a node that took part has handled of the source is this one number. */
  lemma OnlyThisNumber(was: Site, s: Site, b: Broadcast, c: Cipher)
    requires IsCipher(c) && b.f.Ok() && Follows(was, s, b, c) && Numbers(was.done, b.f.src) == iset{}
    ensures Numbers(s.done, b.f.src) == if Level(was, s) < 0 then iset{} else iset{b.n as int}
  {
    hide IsCipher, Pdu, Fields.Ok, Numbers;
    if Level(was, s) >= 0 { NumbersGrow(was.done, b.At(Level(was, s)), b.f.src); }
  }

  lemma OneNumberIsHighest(e: Ent, high: int, n: int)
    requires Means(e, high, iset{n})
    ensures high == n
  {
  }

  lemma GenuineSource(pdu: bytes, l: Label)
    requires Genuine(pdu, l)
    ensures Parse(pdu).Some? && Parse(pdu).value.f.src == l.src
  {
  }

  lemma SteadyNow(was: Site, s: Site, pdu: bytes, h: nat, mac: bool, b: Broadcast, c: Cipher)
    requires IsCipher(c) && b.f.Ok() && Follows(was, s, b, c) && |s.node.rpl| == SLOTS
    requires Genuine(pdu, b.At(h)) && Inv(s, b.f.src, b.n)
    requires s.node.id != b.f.src ==> Numbers(was.done, b.f.src) == iset{}
    ensures Steady(s, pdu, b.At(h), mac, Moment(s.node.rpl, b.f.src), b.f.src)
  {
    hide IsCipher, Pdu, Fields.Ok, Numbers, Parse, Expired, Moment, Check, Commit, Means, Follows, Level;
    GenuineSource(pdu, b.At(h));
    var r := s.node.rpl;
    var k := Find(r, b.f.src, 0);
    if s.node.id != b.f.src && k < |r| {
      OnlyThisNumber(was, s, b, c);
      MomentIsLive(r, b.f.src);
      forall high | Means(r[k], high, Numbers(s.done, b.f.src)) ensures -0x8000 < b.n - high < 0x8000 {
        OneNumberIsHighest(r[k], high, b.n);
      }
    }
  }

  lemma SiteOf(was: Fleet, fl: Fleet, g: Graph, b: Broadcast, c: Cipher, i: nat)
    requires IsCipher(c) && Before(was, b) && During(was, fl, g, b, c) && Ok(fl) && i < |fl.sites|
    requires Unknown(was, b)
    ensures |was.sites| == |fl.sites| == |g| && b.f.Ok()
    ensures Follows(was.sites[i], fl.sites[i], b, c) && |fl.sites[i].node.rpl| == SLOTS
    ensures Inv(fl.sites[i], b.f.src, b.n)
    ensures fl.sites[i].node.id != b.f.src ==> Numbers(was.sites[i].done, b.f.src) == iset{}
  {
    hide IsCipher, Pdu, Fields.Ok, Numbers, Listens, Genuine, Parse, Inv, Times, WaveInv;
    ShapedOf(was, fl, g, b, c);
    SiteRing(fl.sites[i]);
  }

  lemma ShapedOf(was: Fleet, fl: Fleet, g: Graph, b: Broadcast, c: Cipher)
    requires IsCipher(c) && Before(was, b) && During(was, fl, g, b, c)
    ensures |was.sites| == |fl.sites| == |g| && IsGraph(g)
  {
    hide IsCipher, Before, Sound, Ordered, Closed, FleetInv;
  }

  /** Whatever has happened so far, something orderly can happen next. */
  lemma NextEvent(was: Fleet, fl: Fleet, reach: nat, g: Graph, b: Broadcast, c: Cipher) returns (e: Event)
    requires IsCipher(c) && Before(was, b) && During(was, fl, g, b, c) && Ok(fl) && Unknown(was, b)
    requires !Silent(fl) && forall u :: 0 <= u < |g| ==> |g[u]| <= reach
    ensures !e.Originate? && Enabled(fl, e) && |WhoHears(e)| <= reach
    ensures Orderly(fl, e, g, b, c) && SteadyStep(fl, e, b.f.src)
  {
    hide IsCipher, Before, During, Genuine, Pdu, Follows, Inv, Steady, Verifies, Parse, Unknown;
    ShapedOf(was, fl, g, b, c);
    if i :| 0 <= i < |fl.sites| && fl.sites[i].waiting != [] {
      SiteRing(fl.sites[i]);
      return Transmit(i, g[i]);
    }
    forall i | 0 <= i < |fl.sites| ensures fl.sites[i].node.tx == [] { SiteRing(fl.sites[i]); }
    var k := Nearest(Seen(was, fl).air);
    var copy := fl.air[k];
    assert CopyOk(fl, copy);
    AirIs(was, fl, g, b, c, k);
    SiteOf(was, fl, g, b, c, copy.to);
    var s, mac := fl.sites[copy.to], Verifies(c, b.key, copy.pdu);
    SteadyNow(was.sites[copy.to], s, copy.pdu, copy.tag.hops, mac, b, c);
    e := Arrive(k, mac, Moment(s.node.rpl, b.f.src));
    forall j | 0 <= j < |fl.air| ensures copy.tag.hops <= fl.air[j].tag.hops {
      assert Seen(was, fl).air[k].hops <= Seen(was, fl).air[j].hops;
    }
  }

  lemma AirIs(was: Fleet, fl: Fleet, g: Graph, b: Broadcast, c: Cipher, k: nat)
    requires IsCipher(c) && Before(was, b) && During(was, fl, g, b, c) && k < |fl.air|
    ensures fl.air[k].tag == b.At(fl.air[k].tag.hops)
  {
    hide IsCipher, Before, Pdu, WaveInv, FleetInv, Follows;
  }

  /** The rest of the broadcast, up to silence. */
  lemma {:induction false} Finishes(was: Fleet, fl: Fleet, reach: nat, g: Graph, b: Broadcast, c: Cipher)
    returns (es: seq<Event>)
    requires IsCipher(c) && Before(was, b) && During(was, fl, g, b, c) && Ok(fl) && Unknown(was, b)
    requires forall u :: 0 <= u < |g| ==> |g[u]| <= reach
    ensures CanRun(fl, es, reach, c, b.key) && OrderlyRun(fl, es, reach, g, b, c)
    ensures SteadyRun(fl, es, reach, b.f.src, c, b.key) && Silent(Run(fl, es, reach, c, b.key))
    decreases Weight(fl, reach)
  {
    hide IsCipher, Before, During, Ok, Unknown, Silent, Enabled, Orderly, SteadyStep, Step, Weight;
    if Silent(fl) {
      return [];
    }
    var e := NextEvent(was, fl, reach, g, b, c);
    var fl' := Step(fl, e, c, b.key);
    StepWeighsLess(fl, e, reach, c, b.key);
    StepKeepsOk(fl, e, c, b.key);
    DuringOne(was, fl, e, reach, g, b, c);
    var rest := Finishes(was, fl', reach, g, b, c);
    es := [e] + rest;
    assert es[1..] == rest;
  }

  lemma DuringOne(was: Fleet, fl: Fleet, e: Event, reach: nat, g: Graph, b: Broadcast, c: Cipher)
    requires IsCipher(c) && Before(was, b) && During(was, fl, g, b, c) && Ok(fl)
    requires Enabled(fl, e) && |WhoHears(e)| <= reach && Orderly(fl, e, g, b, c) && SteadyStep(fl, e, b.f.src)
    ensures During(was, Step(fl, e, c, b.key), g, b, c)
  {
    hide IsCipher, Before, During, Ok, Enabled, Orderly, SteadyStep, Step;
    StepKeepsOk(fl, e, c, b.key);
    var fl' := Step(fl, e, c, b.key);
    assert [e][1..] == [];
    assert CanRun(fl', [], reach, c, b.key);
    assert CanRun(fl, [e], reach, c, b.key) && OrderlyRun(fl, [e], reach, g, b, c);
    assert SteadyRun(fl, [e], reach, b.f.src, c, b.key);
    RunKeepsWave(was, fl, [e], reach, g, b, c);
    assert Run(fl, [e], reach, c, b.key) == fl';
  }

  /** On every graph a broadcast from a source nobody has heard before can be brought to
      silence without loss, fewer hops first, and then every node within four hops has handled it
      exactly once, those it is addressed to have run its command, and no other node has changed. */
  lemma BroadcastCompletes(was: Fleet, reach: nat, g: Graph, b: Broadcast, c: Cipher)
    returns (es: seq<Event>, end: Fleet)
    requires IsCipher(c) && Before(was, b) && IsGraph(g) && |g| == |was.sites|
    requires FleetInv(was, b.f.src, b.n) && Unknown(was, b)
    requires forall u :: 0 <= u < |g| ==> |g[u]| <= reach
    ensures Enabled(was, Originate(b.o, b.f))
    ensures var fl := Step(was, Originate(b.o, b.f), c, b.key);
      && Ok(fl) && CanRun(fl, es, reach, c, b.key) && OrderlyRun(fl, es, reach, g, b, c)
      && SteadyRun(fl, es, reach, b.f.src, c, b.key) && end == Run(fl, es, reach, c, b.key)
    ensures Silent(end) && |end.sites| == |g|
    ensures forall u :: 0 <= u < |g| ==>
      if Within(g, b.o, u, MAX_HOPS) then
        && end.sites[u].node.ran == was.sites[u].node.ran + b.Runs(was.sites[u].node)
        && Times(end.sites[u].done, b.f.src, b.n) == 1
      else end.sites[u] == was.sites[u]
  {
    hide IsCipher, During, Unknown, Silent, Enabled, Orderly, SteadyStep, Step, Listens, Times, Ok, Within,
      FleetInv, Run, CanRun, OrderlyRun, SteadyRun;
    BroadcastStarts(was, g, b, c);
    var fl := Step(was, Originate(b.o, b.f), c, b.key);
    StepKeepsOk(was, Originate(b.o, b.f), c, b.key);
    es := Finishes(was, fl, reach, g, b, c);
    end := Run(fl, es, reach, c, b.key);
    Coverage(was, es, reach, g, b, c, b.o);
    forall u | 0 <= u < |g|
      ensures if Within(g, b.o, u, MAX_HOPS) then
        && end.sites[u].node.ran == was.sites[u].node.ran + b.Runs(was.sites[u].node)
        && Times(end.sites[u].done, b.f.src, b.n) == 1
      else end.sites[u] == was.sites[u]
    {
      Coverage(was, es, reach, g, b, c, u);
    }
  }
}
