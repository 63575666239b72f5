/**
 * The node moves as the counter machine does: originating is taking a number, saving it and
 * queueing or failing; a beacon going out is the number reaching the air; what is heard from
 * others leaves the counter alone.
 */
module MeshCounter {
  import opened Bytes
  import opened Cmac
  import opened MeshNode
  import opened MeshPdu
  import opened MeshSequence
  import opened Replay

  /** A beacon of the node's own. */
  predicate IsOwn(pdu: bytes, id: bytes) { Parse(pdu).Some? && Parse(pdu).value.f.src == id }

  /** The number of a PDU, if it is the node's own. */
  function OwnNumber(pdu: bytes, id: bytes): (r: seq<nat>)
    ensures |r| <= 1
  {
    if IsOwn(pdu, id) then [Parse(pdu).value.f.seqNo] else []
  }

  /** The numbers of a node's own beacons, in order; the ring holds those of others as well. */
  function Own(tx: seq<bytes>, id: bytes): (r: seq<nat>)
    ensures |r| <= |tx|
  {
    if tx == [] then [] else OwnNumber(tx[0], id) + Own(tx[1..], id)
  }

  /** The counter machine a node is, between two of its jobs. */
  function CounterOf(n: Node, mySeq: nat, saved: Option<nat>, aired: seq<nat>): Counter {
    Counter(mySeq, saved, None, None, Own(n.tx, n.id), aired)
  }

  lemma {:induction false} OwnGrows(tx: seq<bytes>, id: bytes, pdu: bytes)
    ensures Own(tx + [pdu], id) == Own(tx, id) + OwnNumber(pdu, id)
  {
    hide OwnNumber;
    if tx == [] {
      assert [pdu][1..] == [];
    } else {
      assert (tx + [pdu])[1..] == tx[1..] + [pdu];
      OwnGrows(tx[1..], id, pdu);
    }
  }

  /** The relay of a PDU is as much the node's own as the PDU is, under the same number. */
  lemma RelayedIsOwn(c: Cipher, pdu: bytes, ttl: byte, id: bytes)
    requires IsCipher(c) && |pdu| > 1
    ensures IsOwn(SetTtl(pdu, ttl), id) == IsOwn(pdu, id)
    ensures IsOwn(pdu, id) ==> Parse(SetTtl(pdu, ttl)).value.f.seqNo == Parse(pdu).value.f.seqNo
  {
    hide IsCipher, Verifies, SetTtl, Parse;
    SetTtlKeepsVerdict(c, [], pdu, ttl);
  }

  /** What delivering a PDU does to the node's own beacons. */
  lemma DeliveredOwn(c: Cipher, n: Node, pdu: bytes)
    requires IsCipher(c) && |pdu| > 1 && Parse(pdu).Some?
    ensures var v := Parse(pdu).value;
      Own(Deliver(n, pdu, v).tx, n.id) ==
        if v.ttl > 0 && |n.tx| < TXRING_SLOTS && v.f.src == n.id then Own(n.tx, n.id) + [v.f.seqNo] else Own(n.tx, n.id)
    ensures Deliver(n, pdu, Parse(pdu).value).id == n.id
  {
    hide IsCipher, Parse, SetTtl, ForMe, Own;
    var v := Parse(pdu).value;
    if v.ttl > 0 && |n.tx| < TXRING_SLOTS {
      OwnGrows(n.tx, n.id, SetTtl(pdu, v.ttl - 1));
      RelayedIsOwn(c, pdu, v.ttl - 1, n.id);
    }
  }

  /** What Originate leaves of the node, as its contract states it. */
  ghost function Sent(n: Node, f: Fields, built: bool, c: Cipher, key: bytes): Node
    requires IsCipher(c)
  {
    if f.Ok() && built then Trust(n, Signed(c, key, TTL_DEFAULT, f)) else n
  }

  /** How the third step of an origination turns out: the beacon waits, or there is none,
      because it could not be built or the ring was full. */
  function Third(n: Node, f: Fields, built: bool): Event {
    if f.Ok() && built && |n.tx| < TXRING_SLOTS then Queue else Fail
  }

  /** Take, Save and then Queue or Fail from a machine between two jobs. */
  lemma ThreeSteps(c: Counter, last: Event)
    requires c.taken.None? && c.built.None? && (last == Queue || last == Fail)
    ensures Step(Step(Step(c, Take, U16Of), Save, U16Of), last, U16Of) ==
      c.(mySeq := (c.mySeq + 1) % U16, saved := Some(c.mySeq),
         waiting := if last == Queue && |c.waiting| < TXRING_SLOTS then c.waiting + [c.mySeq] else c.waiting)
  {
  }

  /** Originating is Take, Save and then Queue or Fail. */
  lemma OriginateSteps(n: Node, d: bytes, mySeq: nat, saved: Option<nat>, aired: seq<nat>,
                       built: bool, c: Cipher, key: bytes)
    requires IsCipher(c) && |n.id| == 3 && mySeq < U16 && Described(d, n.id, mySeq).Some?
    ensures var f := Described(d, n.id, mySeq).value;
      CounterOf(Sent(n, f, built, c, key), (mySeq + 1) % U16, Some(mySeq), aired)
        == Step(Step(Step(CounterOf(n, mySeq, saved, aired), Take, U16Of), Save, U16Of), Third(n, f, built), U16Of)
  {
    hide IsCipher, Parse, Signed, Own, Deliver, Fields.Ok, Step;
    var f := Described(d, n.id, mySeq).value;
    ThreeSteps(CounterOf(n, mySeq, saved, aired), Third(n, f, built));
    if f.Ok() && built {
      var pdu := Signed(c, key, TTL_DEFAULT, f);
      ParseSigned(c, key, TTL_DEFAULT, f);
      ParsedSize(pdu);
      DeliveredOwn(c, n, pdu);
    }
  }

  /** A beacon going out is Air when it is the node's own, and nothing to the counter when it
      relays another's. */
  lemma TxWorkSteps(n: Node, mySeq: nat, saved: Option<nat>, aired: seq<nat>)
    requires n.tx != []
    ensures var c, n' := CounterOf(n, mySeq, saved, aired), n.(tx := n.tx[1..]);
      if IsOwn(n.tx[0], n.id) then
        CounterOf(n', mySeq, saved, aired + [Parse(n.tx[0]).value.f.seqNo]) == Step(c, Air, U16Of)
      else CounterOf(n', mySeq, saved, aired) == c
  {
    hide IsOwn, Parse;
    if IsOwn(n.tx[0], n.id) {
      assert Own(n.tx, n.id)[1..] == Own(n.tx[1..], n.id);
    }
  }

  /** A PDU from the air never adds a beacon of the node's own. */
  lemma HearSteps(n: Node, pdu: bytes, mac: bool, now: nat, mySeq: nat, saved: Option<nat>, aired: seq<nat>, c: Cipher)
    requires IsCipher(c) && |n.rpl| == SLOTS
    ensures CounterOf(Hear(n, pdu, mac, now), mySeq, saved, aired) == CounterOf(n, mySeq, saved, aired)
  {
    hide IsCipher, Parse, Own, Deliver, Commit, Check;
    if Admits(n, pdu, mac, now) {
      var v := Parse(pdu).value;
      ParsedSize(pdu);
      DeliveredOwn(c, n.(rpl := Commit(n.rpl, v.f.src, v.f.seqNo, now)), pdu);
    }
  }

  /** A boot with what the settings hold is a power cut survived. */
  lemma BootSteps(n: Node, mySeq: nat, saved: Option<nat>, aired: seq<nat>, rpl: seq<Ent>)
    ensures CounterOf(Node(n.id, n.group, rpl, [], []), Resume(saved), saved, aired)
         == Step(CounterOf(n, mySeq, saved, aired), Cut, U16Of)
  {
    hide Parse;
  }
}
