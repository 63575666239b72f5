/**
 * One mesh node: what it does with a PDU it hears or originates, its ring of four beacons
 * waiting for air time, and its own sequence counter.
 */
module MeshNode {
  import opened Bytes
  import opened Cmac
  import opened MeshPdu
  import opened Replay
  import opened ReplaySave

  const TTL_DEFAULT: byte := 4
  const TXRING_SLOTS := 4
  const SEQ_FIRST := 1024

  /** A command handed to the dispatcher. */
  datatype Command = Command(opcode: byte, args: bytes)

  /** The number a boot goes on with: one past the last one saved. */
  function Resume(saved: Option<nat>): nat { if saved.Some? then (saved.value + 1) % U16 else SEQ_FIRST }

  datatype Node = Node(id: bytes, group: byte, rpl: seq<Ent>, tx: seq<bytes>, ran: seq<Command>)

  /** Addressed to this node. */
  predicate ForMe(id: bytes, group: byte, f: Fields) {
    || f.dstType == DST_ALL
    || (f.dstType == DST_GROUP && |f.dst| == 1 && f.dst[0] == group)
    || (f.dstType == DST_ID && |f.dst| == 3 && f.dst == id)
  }

  /** tx_enqueue: a full ring drops the beacon. */
  function Enqueue<T>(tx: seq<T>, x: T): seq<T> {
    if |tx| < TXRING_SLOTS then tx + [x] else tx
  }

  /** A burst of beacons with none going out in between. */
  function EnqueueAll<T>(tx: seq<T>, xs: seq<T>): seq<T>
    decreases |xs|
  {
    if xs == [] then tx else EnqueueAll(Enqueue(tx, xs[0]), xs[1..])
  }

  /** The first ones of a burst find room until four wait; they keep their order. */
  lemma {:induction false} BurstKeepsTheFirst<T>(tx: seq<T>, xs: seq<T>)
    requires |tx| <= 4
    ensures EnqueueAll(tx, xs) == tx + xs[..Min(4 - |tx|, |xs|)]
    decreases |xs|
  {
    if xs != [] {
      BurstKeepsTheFirst(Enqueue(tx, xs[0]), xs[1..]);
    }
  }

  /** Relay with one less to live, then run the command if it is ours. */
  function Deliver(n: Node, pdu: bytes, v: View): Node
    requires |pdu| > 1
  {
    n.(tx := if v.ttl > 0 then Enqueue(n.tx, SetTtl(pdu, v.ttl - 1)) else n.tx,
       ran := if ForMe(n.id, n.group, v.f) then n.ran + [Command(v.f.opcode, v.f.payload)] else n.ran)
  }

  /** Whether a PDU heard over the air gets as far as being delivered. `mac` is the verdict on
      its signature, which a failing cipher call makes negative. */
  predicate Admits(n: Node, pdu: bytes, mac: bool, now: nat) {
    && Parse(pdu).Some?
    && Parse(pdu).value.f.src != n.id
    && Check(n.rpl, Parse(pdu).value.f.src, Parse(pdu).value.f.seqNo, now)
    && mac
  }

  /** mesh_handle_pdu for a PDU heard over the air. */
  function Hear(n: Node, pdu: bytes, mac: bool, now: nat): Node
    requires |n.rpl| == SLOTS
  {
    if !Admits(n, pdu, mac, now) then n
    else
      var v := Parse(pdu).value;
      Deliver(n.(rpl := Commit(n.rpl, v.f.src, v.f.seqNo, now)), pdu, v)
  }

  /** mesh_handle_pdu for a PDU of the node's own making. */
  function Trust(n: Node, pdu: bytes): Node {
    if Parse(pdu).None? then n else Deliver(n, pdu, Parse(pdu).value)
  }

  /** The fields an originate descriptor stands for, if it is long enough to name any. */
  function Described(d: bytes, id: bytes, seqNo: nat): Option<Fields> {
    if |d| < 1 || 1 + DstLen(d[0]) + 1 > |d| then None
    else
      var dl := DstLen(d[0]);
      Some(Fields(seqNo, id, d[0], d[1..1 + dl], d[1 + dl], d[1 + dl + 1..]))
  }

  /** A descriptor is taken apart where it was put together, and only one with no room for its
      opcode is none. */
  lemma DescribedBuilt(dstType: byte, dst: bytes, opcode: byte, payload: bytes, id: bytes, seqNo: nat)
    requires |dst| == DstLen(dstType)
    ensures Described([dstType] + dst + [opcode] + payload, id, seqNo)
         == Some(Fields(seqNo, id, dstType, dst, opcode, payload))
  {
    var d := [dstType] + dst + [opcode] + payload;
    assert d[1..1 + |dst|] == dst;
    assert d[1 + |dst| + 1..] == payload;
  }

  lemma DescribedExactly(d: bytes, id: bytes, seqNo: nat)
    ensures Described(d, id, seqNo).None? <==>
      |d| < 2 || (d[0] == 1 && |d| < 3) || (d[0] == 2 && |d| < 5)
    ensures Described(d, id, seqNo).Some? ==>
      var f := Described(d, id, seqNo).value;
      f.seqNo == seqNo && f.src == id && d == [f.dstType] + f.dst + [f.opcode] + f.payload
  {
    if Described(d, id, seqNo).Some? {
      var dl := DstLen(d[0]);
      assert d == d[..1] + d[1..1 + dl] + d[1 + dl..1 + dl + 1] + d[1 + dl + 1..];
    }
  }

  /** The beacons waiting in the ring, oldest first. */
  function Ring(slots: seq<bytes>, head: nat, count: nat): (r: seq<bytes>)
    requires |slots| == TXRING_SLOTS
    ensures |r| == count
  {
    seq(count, i requires 0 <= i < count => slots[(head + i) % TXRING_SLOTS])
  }

  /** Writing behind the last beacon lengthens the queue. */
  lemma RingPush(slots: seq<bytes>, head: nat, count: nat, pdu: bytes)
    requires |slots| == TXRING_SLOTS && head < TXRING_SLOTS && count < TXRING_SLOTS
    ensures Ring(slots[(head + count) % TXRING_SLOTS := pdu], head, count + 1) == Ring(slots, head, count) + [pdu]
  {
    var r := Ring(slots, head, count);
    var s := Ring(slots[(head + count) % TXRING_SLOTS := pdu], head, count + 1);
    forall i | 0 <= i < count ensures s[i] == r[i] {
      RingApart(head + i, head + count);
    }
    assert s == s[..count] + [pdu];
  }

  lemma RingApart(a: nat, b: nat)
    requires a < b < a + TXRING_SLOTS
    ensures a % TXRING_SLOTS != b % TXRING_SLOTS
  {
  }

  /** Stepping past the first beacon shortens it. */
  lemma RingPop(slots: seq<bytes>, head: nat, count: nat)
    requires |slots| == TXRING_SLOTS && head < TXRING_SLOTS && 0 < count
    ensures Ring(slots, head, count)[0] == slots[head]
    ensures Ring(slots, (head + 1) % TXRING_SLOTS, count - 1) == Ring(slots, head, count)[1..]
  {
    var r, s := Ring(slots, head, count), Ring(slots, (head + 1) % TXRING_SLOTS, count - 1);
    forall i | 0 <= i < count - 1 ensures s[i] == r[1..][i] {
      RingNext(head, i);
    }
  }

  lemma RingNext(head: nat, i: nat)
    ensures ((head + 1) % TXRING_SLOTS + i) % TXRING_SLOTS == (head + (i + 1)) % TXRING_SLOTS
  {
  }

  class MeshNode {
    const id: bytes
    const cmac: CmacUnit
    const rpl: ReplayList
    const txRing: array<bytes>
    var group: byte
    var key: bytes
    var txHead: nat
    var txCount: nat
    var mySeq: nat
    var savedSeq: Option<nat>
    var ran: seq<Command>
    var savedRpl: Option<bytes>
    var rplSavedS: nat
    var rplDirty: bool
    var saveDue: Option<nat>

    ghost predicate Valid()
      reads this, cmac, rpl, rpl.e, txRing
    {
      && |id| == 3 && cmac.Valid() && rpl.Valid()
      && txRing.Length == TXRING_SLOTS
      && txHead < TXRING_SLOTS && txCount <= TXRING_SLOTS
      && mySeq < U16
    }

    ghost function State(): (n: Node)
      requires Valid()
      reads this, cmac, rpl, rpl.e, txRing
      ensures |n.rpl| == SLOTS
    {
      Node(id, group, rpl.e[..], Ring(txRing[..], txHead, txCount), ran)
    }

    /** What the settings hold of the replay list, and what is due to them. */
    ghost function Saving(): Saver
      reads this
    {
      Saver(savedRpl, rplSavedS, rplDirty, saveDue)
    }

    constructor (id: bytes, group: byte, key: bytes, cmac: CmacUnit)
      requires |id| == 3 && cmac.Valid()
      ensures Saving() == Saver(None, 0, false, None)
      ensures Valid() && mySeq == 1024 && savedSeq == None
      ensures State() == Node(id, group, Repeat(UNUSED, SLOTS), [], [])
    {
      this.id, this.group, this.key, this.cmac := id, group, key, cmac;
      rpl := new ReplayList();
      txRing := new bytes[TXRING_SLOTS](_ => []);
      txHead, txCount, mySeq, savedSeq, ran := 0, 0, SEQ_FIRST, None, [];
      savedRpl, rplSavedS, rplDirty, saveDue := None, 0, false, None;
    }

    /** A boot with what settings hold: the counter resumes one past the saved number, and the
        replay list comes back from its blob when there is one that fits the buffer. */
    constructor Boot(id: bytes, group: byte, key: bytes, cmac: CmacUnit,
                     seqSetting: Option<nat>, rplSetting: Option<bytes>)
      requires |id| == 3 && cmac.Valid() && (seqSetting.Some? ==> seqSetting.value < U16)
      ensures Valid() && savedSeq == seqSetting
      ensures mySeq == Resume(seqSetting) && Saving() == Saver(rplSetting, 0, false, None)
      ensures State() == Node(id, group,
                              if rplSetting.Some? && |rplSetting.value| <= 41 then Import(rplSetting.value)
                              else Repeat(UNUSED, SLOTS), [], [])
    {
      hide Import;
      this.id, this.group, this.key, this.cmac := id, group, key, cmac;
      rpl := new ReplayList();
      txRing := new bytes[TXRING_SLOTS](_ => []);
      txHead, txCount, ran := 0, 0, [];
      mySeq, savedSeq := SEQ_FIRST, seqSetting;
      savedRpl, rplSavedS, rplDirty, saveDue := rplSetting, 0, false, None;
      new;
      if seqSetting.Some? {
        mySeq := (seqSetting.value + 1) % U16;
      }
      if rplSetting.Some? && |rplSetting.value| <= BLOB_MAX {
        var _ := rpl.ImportBlob(rplSetting.value);
      }
    }

    method TxEnqueue(pdu: bytes)
      requires Valid()
      modifies this`txCount, txRing
      ensures Valid() && State() == old(State()).(tx := Enqueue(old(State()).tx, pdu))
    {
      hide Ring;
      if txCount < TXRING_SLOTS {
        RingPush(txRing[..], txHead, txCount, pdu);
        var slot := (txHead + txCount) % TXRING_SLOTS;
        txRing[slot] := pdu;
        txCount := txCount + 1;
      }
    }

    /** tx_work_fn: the next beacon to put on the air. */
    method TxWork() returns (beacon: Option<bytes>)
      requires Valid()
      modifies this`txHead, this`txCount
      ensures Valid()
      ensures if old(State()).tx == [] then beacon == None && State() == old(State())
              else beacon == Some(old(State()).tx[0]) && State() == old(State()).(tx := old(State()).tx[1..])
    {
      hide Ring;
      if txCount == 0 {
        return None;
      }
      RingPop(txRing[..], txHead, txCount);
      beacon := Some(txRing[txHead]);
      txHead := (txHead + 1) % TXRING_SLOTS;
      txCount := txCount - 1;
    }

    /** next_seq: the number is in the settings before anyone can put it on the air. */
    method NextSeq() returns (s: nat)
      requires Valid()
      modifies this`mySeq, this`savedSeq
      ensures Valid() && State() == old(State())
      ensures s == old(mySeq) && savedSeq == Some(s) && mySeq == (s + 1) % U16
    {
      s := mySeq;
      mySeq := (mySeq + 1) % U16;
      savedSeq := Some(s);
    }

    /** Relay, then run: the common end of mesh_handle_pdu. */
    method RelayAndRun(pdu: bytes, v: View)
      requires Valid() && Parse(pdu) == Some(v) && |pdu| > 1
      modifies this`txCount, this`ran, txRing
      ensures Valid() && State() == Deliver(old(State()), pdu, v)
    {
      hide Parse, SetTtl, Enqueue, Ring, ForMe, WellFormed, IsCipher;
      if v.ttl > 0 {
        TxEnqueue(SetTtl(pdu, v.ttl - 1));
      }
      if !ForMe(id, group, v.f) {
        return;
      }
      ran := ran + [Command(v.f.opcode, v.f.payload)];
    }

    /** rpl_save_now */
    method RplSaveNow(now: nat)
      requires Valid()
      modifies this`savedRpl, this`rplSavedS, this`rplDirty
      ensures Valid() && State() == old(State())
      ensures Saving() == SaveNow(old(Saving()), rpl.e[..], now)
    {
      var blob := rpl.ExportBlob(BLOB_MAX);
      savedRpl := Some(blob);
      rplSavedS := now;
      rplDirty := false;
    }

    /** rpl_save_fn: the timer hands the write to the mesh thread, or comes back in a second when
        the job queue is full. */
    method SaveTimer(full: bool, now: nat)
      requires Valid() && saveDue.Some?
      modifies this`saveDue
      ensures Valid() && State() == old(State())
      ensures Saving() == old(Saving()).(due := if full then Some(now + 1) else None)
    {
      saveDue := if full then Some(now + 1) else None;
    }

    /** The deferred write, on the mesh thread. */
    method SaveJob(now: nat)
      requires Valid()
      modifies this`savedRpl, this`rplSavedS, this`rplDirty
      ensures Valid() && State() == old(State())
      ensures Saving() == if old(rplDirty) then SaveNow(old(Saving()), rpl.e[..], now) else old(Saving())
    {
      if rplDirty {
        RplSaveNow(now);
      }
    }

    /** The part of mesh_handle_pdu that remembers an accepted PDU. */
    method Remember(v: View, now: nat)
      requires Valid() && |v.f.src| == 3 && v.f.seqNo < U16
      modifies this`savedRpl, this`rplSavedS, this`rplDirty, this`saveDue, rpl.e
      ensures Valid() && State() == old(State()).(rpl := Commit(old(State()).rpl, v.f.src, v.f.seqNo, now))
      ensures Saving() == OnCommit(old(Saving()), rpl.e[..], now)
    {
      hide Commit, Ring;
      rpl.CommitSeq(v.f.src, v.f.seqNo, now);
      rplDirty := true;
      if rplSavedS == 0 || now - rplSavedS >= SAVE_MIN_S {
        RplSaveNow(now);
      } else if saveDue.None? {
        saveDue := Some(now + SAVE_MIN_S);
      }
    }

    /** mesh_handle_pdu. The signature is only computed for a PDU that gets past the replay
        list, and the replay list only changes for a PDU whose signature holds. */
    method HandlePdu(pdu: bytes, trusted: bool, now: nat)
      requires Valid()
      modifies this`txCount, this`ran, txRing, rpl.e, cmac, cmac.aes
      modifies this`savedRpl, this`rplSavedS, this`rplDirty, this`saveDue
      ensures Valid()
      ensures Saving() ==
        if !trusted && Admits(old(State()), pdu,
                              NoFault(cmac.aes.fault, old(cmac.aes.calls), cmac.aes.calls)
                              && Verifies(cmac.aes.cipher, key, pdu), now)
        then OnCommit(old(Saving()), State().rpl, now) else old(Saving())
      ensures State() == if trusted then Trust(old(State()), pdu)
        else Hear(old(State()), pdu,
                  NoFault(cmac.aes.fault, old(cmac.aes.calls), cmac.aes.calls)
                  && Verifies(cmac.aes.cipher, key, pdu), now)
      ensures (trusted || !Admits(old(State()), pdu, true, now)) ==> cmac.aes.calls == old(cmac.aes.calls)
    {
      hide Deliver, Check, Commit, Verifies, NoFault, IsCipher;
      var parsed := Parse(pdu);
      if parsed.None? {
        return;
      }
      var v := parsed.value;
      ParsedSize(pdu);
      hide Parse;
      if !trusted && v.f.src == id {
        return;
      }
      if !trusted {
        var seen := rpl.CheckSeq(v.f.src, v.f.seqNo, now);
        if !seen {
          return;
        }
        var ok := Verify(pdu, cmac, key);
        if !ok {
          return;
        }
        Remember(v, now);
      }
      RelayAndRun(pdu, v);
    }

    /** Build a PDU of one's own and handle it: nothing comes of one that cannot be built. */
    method SendOwn(f: Fields)
      requires Valid() && f.src == id && f.seqNo < U16 && |f.dst| == DstLen(f.dstType)
      modifies this`txCount, this`ran, txRing, rpl.e, cmac, cmac.aes
      modifies this`savedRpl, this`rplSavedS, this`rplDirty, this`saveDue
      ensures Valid() && Saving() == old(Saving())
      ensures State() == if f.Ok() && NoFault(cmac.aes.fault, old(cmac.aes.calls), cmac.aes.calls)
                         then Trust(old(State()), Signed(cmac.aes.cipher, key, TTL_DEFAULT, f))
                         else old(State())
    {
      hide Trust, Signed, NoFault, IsCipher, Ring, WellFormed, Parse, Verifies, Admits;
      var pdu := new byte[PDU_MAX];
      var len := Build(pdu, TTL_DEFAULT, f, cmac, key);
      if len < 0 {
        return;
      }
      HandlePdu(pdu[..len], true, 0);
    }

    /** mesh_do_originate: a descriptor is type, destination, opcode, payload. One that is cut
        short does nothing; any other uses up a number even when no PDU comes of it. */
    method Originate(d: bytes)
      requires Valid()
      modifies this`mySeq, this`savedSeq, this`txCount, this`ran, txRing, rpl.e, cmac, cmac.aes
      modifies this`savedRpl, this`rplSavedS, this`rplDirty, this`saveDue
      ensures Valid() && Saving() == old(Saving())
      ensures Described(d, id, old(mySeq)).None? ==>
        State() == old(State()) && mySeq == old(mySeq) && savedSeq == old(savedSeq)
      ensures Described(d, id, old(mySeq)).Some? ==>
        && mySeq == (old(mySeq) + 1) % U16 && savedSeq == Some(old(mySeq))
        && var f := Described(d, id, old(mySeq)).value;
        State() == if f.Ok() && NoFault(cmac.aes.fault, old(cmac.aes.calls), cmac.aes.calls)
                   then Trust(old(State()), Signed(cmac.aes.cipher, key, TTL_DEFAULT, f))
                   else old(State())
    {
      hide Trust, Signed, NoFault, IsCipher, Ring, WellFormed, Fields.Ok;
      if |d| < 1 {
        return;
      }
      var dl := DstLen(d[0]);
      if 1 + dl + 1 > |d| {
        return;
      }
      var s := NextSeq();
      SendOwn(Fields(s, id, d[0], d[1..1 + dl], d[1 + dl], d[1 + dl + 1..]));
    }
  }

  lemma ParsedSize(pdu: bytes)
    requires Parse(pdu).Some?
    ensures |pdu| > 1 && |Parse(pdu).value.f.src| == 3 && Parse(pdu).value.f.seqNo < U16
  {
  }
}
