/**
 * A fleet: nodes, and copies of PDUs in the air, one step per delivered copy. Any node may
 * hear any transmission, any number of times, in any order, or not at all. Every PDU carries
 * for the proof the unbounded number behind its sixteen bits and the hops it has made.
 */
module MeshFleet {
  import opened Bytes
  import opened Cmac
  import opened MeshNode
  import opened MeshPdu
  import opened Replay

  const MAX_HOPS := 4

  datatype Label = Label(src: bytes, n: nat, hops: nat)

  /** A node with its counter and what the proof remembers: labels of the beacons waiting in
      its ring, of the PDUs it has handled and of those it has put on the air. */
  datatype Site = Site(node: Node, next: nat, waiting: seq<Label>, done: seq<Label>, sent: seq<Label>)

  datatype Copy = Copy(to: nat, pdu: bytes, tag: Label)

  datatype Fleet = Fleet(sites: seq<Site>, air: seq<Copy>)

  datatype Event =
    | Originate(at: nat, f: Fields)
    | Transmit(at: nat, hearers: seq<nat>)
    | Arrive(copy: nat, mac: bool, now: nat)
    | Lose(copy: nat)

  // ---- steps ----

  ghost function Originated(s: Site, pdu: bytes): Site {
    s.(node := Trust(s.node, pdu), next := s.next + 1,
       waiting := Enqueue(s.waiting, Label(s.node.id, s.next, 1)),
       done := s.done + [Label(s.node.id, s.next, 0)])
  }

  ghost function Arrived(s: Site, pdu: bytes, l: Label, mac: bool, now: nat): Site
    requires |s.node.rpl| == SLOTS
  {
    if !Admits(s.node, pdu, mac, now) then s
    else
      s.(node := Hear(s.node, pdu, mac, now),
         waiting := if Parse(pdu).value.ttl > 0 then Enqueue(s.waiting, l.(hops := l.hops + 1)) else s.waiting,
         done := s.done + [l])
  }

  ghost function Transmitted(s: Site): Site
    requires s.node.tx != [] && s.waiting != []
  {
    s.(node := s.node.(tx := s.node.tx[1..]), waiting := s.waiting[1..], sent := s.sent + [s.waiting[0]])
  }

  function Copies(hearers: seq<nat>, pdu: bytes, l: Label): (r: seq<Copy>)
    ensures |r| == |hearers|
  {
    seq(|hearers|, i requires 0 <= i < |hearers| => Copy(hearers[i], pdu, l))
  }

  /** Whether an event can happen: the copy is there, the ring is not empty, the numbers are
      the ones next_seq hands out. */
  ghost predicate Enabled(fl: Fleet, e: Event) {
    match e
    case Originate(i, f) =>
      i < |fl.sites| && f.Ok() && f.src == fl.sites[i].node.id && f.seqNo == fl.sites[i].next % U16
    case Transmit(i, hearers) =>
      i < |fl.sites| && fl.sites[i].node.tx != []
      && forall k :: 0 <= k < |hearers| ==> hearers[k] < |fl.sites|
    case Arrive(k, _, _) => k < |fl.air|
    case Lose(k) => k < |fl.air|
  }

  ghost function Step(fl: Fleet, e: Event, c: Cipher, key: bytes): Fleet
    requires IsCipher(c) && Ok(fl) && Enabled(fl, e)
  {
    match e
    case Originate(i, f) =>
      fl.(sites := fl.sites[i := Originated(fl.sites[i], Signed(c, key, TTL_DEFAULT, f))])
    case Transmit(i, hearers) =>
      Fleet(fl.sites[i := Transmitted(fl.sites[i])],
            fl.air + Copies(hearers, fl.sites[i].node.tx[0], fl.sites[i].waiting[0]))
    case Arrive(k, mac, now) =>
      var copy := fl.air[k];
      Fleet(fl.sites[copy.to := Arrived(fl.sites[copy.to], copy.pdu, copy.tag, mac, now)],
            fl.air[..k] + fl.air[k + 1..])
    case Lose(k) => fl.(air := fl.air[..k] + fl.air[k + 1..])
  }

  function WhoHears(e: Event): seq<nat> { if e.Transmit? then e.hearers else [] }

  // ---- every copy is worth its TTL ----

  function TtlAt(hops: nat): byte {
    if hops == 0 then 4 else if hops == 1 then 3 else if hops == 2 then 2 else if hops == 3 then 1 else 0
  }

  /** The PDU says what its label says, and the hops made are the TTL used up. */
  predicate Genuine(pdu: bytes, l: Label) {
    && Parse(pdu).Some?
    && var v := Parse(pdu).value;
    v.f.src == l.src && v.f.seqNo == l.n % U16 && l.hops <= MAX_HOPS && v.ttl == TtlAt(l.hops)
  }

  predicate SiteOk(s: Site) {
    && |s.node.rpl| == SLOTS && |s.waiting| == |s.node.tx|
    && forall j :: 0 <= j < |s.waiting| ==> Genuine(s.node.tx[j], s.waiting[j]) && s.waiting[j].hops > 0
  }

  predicate CopyOk(fl: Fleet, c: Copy) { c.to < |fl.sites| && Genuine(c.pdu, c.tag) && c.tag.hops > 0 }

  predicate Ok(fl: Fleet) {
    && (forall i :: 0 <= i < |fl.sites| ==> SiteOk(fl.sites[i]))
    && forall k :: 0 <= k < |fl.air| ==> CopyOk(fl, fl.air[k])
  }

  lemma TtlCounts(hops: nat)
    requires hops <= MAX_HOPS
    ensures TtlAt(hops) as int + hops == MAX_HOPS
    ensures TtlAt(hops) > 0 <==> hops < MAX_HOPS
    ensures hops < MAX_HOPS ==> TtlAt(hops) - 1 == TtlAt(hops + 1) && TtlAt(hops + 1) & 0x0F == TtlAt(hops + 1)
    ensures TtlAt(hops) < 16
    ensures TtlAt(0) == TTL_DEFAULT && TTL_DEFAULT - 1 == TtlAt(1)
  {
  }

  lemma RelayGenuine(c: Cipher, pdu: bytes, l: Label)
    requires IsCipher(c) && Genuine(pdu, l)
    ensures |pdu| > 1 && Parse(pdu).Some?
    ensures Parse(pdu).value.ttl > 0 <==> l.hops < MAX_HOPS
    ensures Parse(pdu).value.ttl > 0 ==>
      Genuine(SetTtl(pdu, Parse(pdu).value.ttl - 1), l.(hops := l.hops + 1))
  {
    hide IsCipher, Verifies, SetTtl;
    ParsedSize(pdu);
    TtlCounts(l.hops);
    SetTtlKeepsVerdict(c, [], pdu, Parse(pdu).value.ttl - 1);
  }

  lemma SignedGenuine(c: Cipher, key: bytes, f: Fields, n: nat)
    requires IsCipher(c) && f.Ok() && f.seqNo == n % U16
    ensures Genuine(Signed(c, key, TTL_DEFAULT, f), Label(f.src, n, 0))
  {
    hide IsCipher, Signed, Parse, Body, MacOf;
    ParseSigned(c, key, TTL_DEFAULT, f);
  }

  /** Handling a PDU queues at most its relay, one hop on. */
  lemma DeliverQueues(c: Cipher, s: Site, n: Node, pdu: bytes, l: Label, s': Site)
    requires IsCipher(c) && SiteOk(s) && n.tx == s.node.tx && |n.rpl| == SLOTS && Genuine(pdu, l)
    requires Parse(pdu).Some? && |pdu| > 1 && s'.node == Deliver(n, pdu, Parse(pdu).value)
    requires s'.waiting == if Parse(pdu).value.ttl > 0 then Enqueue(s.waiting, l.(hops := l.hops + 1)) else s.waiting
    ensures SiteOk(s')
  {
    hide IsCipher, Genuine, ForMe, SetTtl, Parse;
    RelayGenuine(c, pdu, l);
  }

  lemma OriginatedOk(c: Cipher, key: bytes, s: Site, f: Fields)
    requires IsCipher(c) && SiteOk(s) && f.Ok() && f.src == s.node.id && f.seqNo == s.next % U16
    ensures SiteOk(Originated(s, Signed(c, key, TTL_DEFAULT, f)))
  {
    hide IsCipher, Signed, Parse, Genuine, SiteOk, Deliver;
    var pdu, l := Signed(c, key, TTL_DEFAULT, f), Label(f.src, s.next, 0);
    SignedGenuine(c, key, f, s.next);
    RelayGenuine(c, pdu, l);
    SiteRing(s);
    DeliverQueues(c, s, s.node, pdu, l, Originated(s, pdu));
  }

  lemma SiteRing(s: Site)
    requires SiteOk(s)
    ensures |s.node.rpl| == SLOTS && |s.waiting| == |s.node.tx|
  {
  }

  lemma ArrivedOk(c: Cipher, s: Site, pdu: bytes, l: Label, mac: bool, now: nat)
    requires IsCipher(c) && SiteOk(s) && Genuine(pdu, l)
    ensures |s.node.rpl| == SLOTS
    ensures SiteOk(Arrived(s, pdu, l, mac, now))
  {
    hide IsCipher, Parse, Genuine, SiteOk, Deliver, Commit, Check;
    SiteRing(s);
    RelayGenuine(c, pdu, l);
    if Admits(s.node, pdu, mac, now) {
      var v := Parse(pdu).value;
      DeliverQueues(c, s, s.node.(rpl := Commit(s.node.rpl, v.f.src, v.f.seqNo, now)), pdu, l,
        Arrived(s, pdu, l, mac, now));
    }
  }

  /** Every copy in the air and every beacon waiting has used up exactly as much TTL as it has
      made hops, after any step. */
  lemma StepKeepsOk(fl: Fleet, e: Event, c: Cipher, key: bytes)
    requires IsCipher(c) && Ok(fl) && Enabled(fl, e)
    ensures Ok(Step(fl, e, c, key))
    ensures |Step(fl, e, c, key).sites| == |fl.sites|
  {
    hide IsCipher, Parse, Genuine, Signed, Originated, Arrived, Fields.Ok;
    match e
    case Originate(i, f) => OriginatedOk(c, key, fl.sites[i], f);
    case Arrive(k, mac, now) =>
      ArrivedOk(c, fl.sites[fl.air[k].to], fl.air[k].pdu, fl.air[k].tag, mac, now);
    case _ =>
  }

  // ---- runs ----

  /** A run every step of which can happen, with at most `reach` receptions of one
      transmission. */
  ghost predicate CanRun(fl: Fleet, es: seq<Event>, reach: nat, c: Cipher, key: bytes)
    requires IsCipher(c) && Ok(fl)
    decreases |es|
  {
    es == [] || (
      Enabled(fl, es[0]) && |WhoHears(es[0])| <= reach && (
        StepKeepsOk(fl, es[0], c, key);
        CanRun(Step(fl, es[0], c, key), es[1..], reach, c, key)))
  }

  ghost function Run(fl: Fleet, es: seq<Event>, reach: nat, c: Cipher, key: bytes): Fleet
    requires IsCipher(c) && Ok(fl) && CanRun(fl, es, reach, c, key)
    decreases |es|
  {
    if es == [] then fl
    else
      StepKeepsOk(fl, es[0], c, key);
      Run(Step(fl, es[0], c, key), es[1..], reach, c, key)
  }

  lemma {:induction false} RunKeepsOk(fl: Fleet, es: seq<Event>, reach: nat, c: Cipher, key: bytes)
    requires IsCipher(c) && Ok(fl) && CanRun(fl, es, reach, c, key)
    ensures Ok(Run(fl, es, reach, c, key))
    ensures |Run(fl, es, reach, c, key).sites| == |fl.sites|
    decreases |es|
  {
    hide IsCipher, Step, Enabled, Ok;
    if es != [] {
      StepKeepsOk(fl, es[0], c, key);
      RunKeepsOk(Step(fl, es[0], c, key), es[1..], reach, c, key);
    }
  }

  /** No copy ever makes more than four hops: TTL and hops always add up to four. */
  lemma HopsAreBounded(fl: Fleet, es: seq<Event>, reach: nat, c: Cipher, key: bytes)
    requires IsCipher(c) && Ok(fl) && CanRun(fl, es, reach, c, key)
    ensures forall k {:trigger Run(fl, es, reach, c, key).air[k]} :: 0 <= k < |Run(fl, es, reach, c, key).air| ==>
      var copy := Run(fl, es, reach, c, key).air[k];
      Parse(copy.pdu).Some? && Parse(copy.pdu).value.ttl as int + copy.tag.hops == MAX_HOPS && copy.tag.hops > 0
  {
    hide IsCipher, Parse, Run, CanRun;
    RunKeepsOk(fl, es, reach, c, key);
    var end := Run(fl, es, reach, c, key);
    forall k | 0 <= k < |end.air|
      ensures Parse(end.air[k].pdu).Some?
        && Parse(end.air[k].pdu).value.ttl as int + end.air[k].tag.hops == MAX_HOPS && end.air[k].tag.hops > 0
    {
      assert CopyOk(end, end.air[k]);
      TtlCounts(end.air[k].tag.hops);
    }
  }

  // ---- every flood ends ----

  function Left(hops: nat): nat { if hops < MAX_HOPS then MAX_HOPS - hops else 0 }

  /** The most that can still come of a copy in the air, and of a beacon waiting. */
  function CopyWeight(hops: nat, reach: nat): (w: nat)
    ensures w >= 1
    decreases Left(hops), 0
  {
    if hops >= MAX_HOPS then 1 else 1 + BeaconWeight(hops + 1, reach)
  }

  function BeaconWeight(hops: nat, reach: nat): (w: nat)
    decreases Left(hops), 1
  {
    1 + reach * CopyWeight(hops, reach)
  }

  function RingWeight(q: seq<Label>, reach: nat): nat {
    if q == [] then 0 else BeaconWeight(q[0].hops, reach) + RingWeight(q[1..], reach)
  }

  function AirWeight(air: seq<Copy>, reach: nat): nat {
    if air == [] then 0 else CopyWeight(air[0].tag.hops, reach) + AirWeight(air[1..], reach)
  }

  function SitesWeight(sites: seq<Site>, reach: nat): nat {
    if sites == [] then 0 else RingWeight(sites[0].waiting, reach) + SitesWeight(sites[1..], reach)
  }

  function Weight(fl: Fleet, reach: nat): nat { SitesWeight(fl.sites, reach) + AirWeight(fl.air, reach) }

  lemma {:induction false} RingGrows(q: seq<Label>, l: Label, reach: nat)
    ensures RingWeight(q + [l], reach) == RingWeight(q, reach) + BeaconWeight(l.hops, reach)
  {
    hide BeaconWeight;
    if q == [] {
      assert [l][1..] == [];
    } else {
      assert (q + [l])[1..] == q[1..] + [l];
      RingGrows(q[1..], l, reach);
    }
  }

  lemma {:induction false} AirSplits(a: seq<Copy>, b: seq<Copy>, reach: nat)
    ensures AirWeight(a + b, reach) == AirWeight(a, reach) + AirWeight(b, reach)
  {
    hide CopyWeight;
    if a == [] {
      assert a + b == b;
    } else {
      assert (a + b)[1..] == a[1..] + b;
      AirSplits(a[1..], b, reach);
    }
  }

  lemma AirLoses(air: seq<Copy>, k: nat, reach: nat)
    requires k < |air|
    ensures AirWeight(air[..k] + air[k + 1..], reach) + CopyWeight(air[k].tag.hops, reach) == AirWeight(air, reach)
  {
    hide CopyWeight;
    assert air == air[..k] + air[k..];
    AirSplits(air[..k], air[k..], reach);
    AirSplits(air[..k], air[k + 1..], reach);
  }

  lemma {:induction false} CopiesWeigh(hearers: seq<nat>, pdu: bytes, l: Label, reach: nat)
    ensures AirWeight(Copies(hearers, pdu, l), reach) == |hearers| * CopyWeight(l.hops, reach)
  {
    hide CopyWeight;
    if hearers != [] {
      assert Copies(hearers, pdu, l)[1..] == Copies(hearers[1..], pdu, l);
      CopiesWeigh(hearers[1..], pdu, l, reach);
    }
  }

  lemma {:induction false} OneSiteChanges(sites: seq<Site>, i: nat, s: Site, reach: nat)
    requires i < |sites|
    ensures SitesWeight(sites[i := s], reach) + RingWeight(sites[i].waiting, reach)
         == SitesWeight(sites, reach) + RingWeight(s.waiting, reach)
  {
    hide RingWeight;
    if i == 0 {
      assert sites[0 := s][1..] == sites[1..];
    } else {
      assert sites[i := s][1..] == sites[1..][i - 1 := s];
      OneSiteChanges(sites[1..], i - 1, s, reach);
    }
  }

  lemma ArrivedWeighs(s: Site, pdu: bytes, l: Label, mac: bool, now: nat, reach: nat)
    requires SiteOk(s) && Genuine(pdu, l)
    ensures RingWeight(Arrived(s, pdu, l, mac, now).waiting, reach)
          < RingWeight(s.waiting, reach) + CopyWeight(l.hops, reach)
  {
    hide Parse, SiteOk, Hear, RingWeight, BeaconWeight;
    TtlCounts(l.hops);
    SiteRing(s);
    RingGrows(s.waiting, l.(hops := l.hops + 1), reach);
  }

  /** Whatever happens but a new broadcast uses up weight. */
  lemma StepWeighsLess(fl: Fleet, e: Event, reach: nat, c: Cipher, key: bytes)
    requires IsCipher(c) && Ok(fl) && Enabled(fl, e) && |WhoHears(e)| <= reach
    requires !e.Originate?
    ensures Weight(Step(fl, e, c, key), reach) < Weight(fl, reach)
  {
    hide IsCipher, Arrived, CopyWeight, AirWeight, SitesWeight, Copies, Genuine, Parse;
    match e
    case Transmit(i, hearers) =>
      var s := fl.sites[i];
      var l := s.waiting[0];
      OneSiteChanges(fl.sites, i, Transmitted(s), reach);
      AirSplits(fl.air, Copies(hearers, s.node.tx[0], l), reach);
      CopiesWeigh(hearers, s.node.tx[0], l, reach);
      WeighsAtMost(|hearers|, reach, CopyWeight(l.hops, reach));
    case Arrive(k, mac, now) =>
      var copy := fl.air[k];
      AirLoses(fl.air, k, reach);
      OneSiteChanges(fl.sites, copy.to, Arrived(fl.sites[copy.to], copy.pdu, copy.tag, mac, now), reach);
      ArrivedWeighs(fl.sites[copy.to], copy.pdu, copy.tag, mac, now, reach);
    case Lose(k) =>
      AirLoses(fl.air, k, reach);
  }

  lemma WeighsAtMost(a: nat, b: nat, w: nat)
    requires a <= b
    ensures a * w <= b * w
  {
  }

  /** Without new broadcasts a fleet falls silent: no run is longer than the weight of what is
      in the air and in the rings at its start, on any topology and in any order. */
  lemma {:induction false} FloodEnds(fl: Fleet, es: seq<Event>, reach: nat, c: Cipher, key: bytes)
    requires IsCipher(c) && Ok(fl) && CanRun(fl, es, reach, c, key)
    requires forall j :: 0 <= j < |es| ==> !es[j].Originate?
    ensures |es| <= Weight(fl, reach) - Weight(Run(fl, es, reach, c, key), reach)
    decreases |es|
  {
    hide IsCipher, Step, Enabled, Ok, Weight;
    if es != [] {
      StepWeighsLess(fl, es[0], reach, c, key);
      StepKeepsOk(fl, es[0], c, key);
      FloodEnds(Step(fl, es[0], c, key), es[1..], reach, c, key);
    }
  }
}
