/**
 * The node saves as the keeper of `ReplaySave` does: hearing a PDU with a right MAC, the timer, the
 * deferred write and a boot are its events.
 */
module MeshKeeper {
  import opened Bytes
  import opened MeshNode
  import opened MeshPdu
  import opened Replay
  import opened ReplaySave

  /** The keeper has the node's list and its settings. */
  predicate Follows(k: Keeper, n: Node, v: Saver) {
    && WellFormed(k.rpl) && k.rpl == n.rpl && k.v == v
    && (v.blob.Some? ==> |v.blob.value| <= BLOB_MAX)
  }

  /** What hearing a PDU leaves of the settings, as HandlePdu's contract states it. */
  function SavingAfter(n: Node, v: Saver, pdu: bytes, mac: bool, now: nat): Saver
    requires WellFormed(n.rpl)
  {
    HearFits(n, pdu, mac, now);
    if Admits(n, pdu, mac, now) then OnCommit(v, Hear(n, pdu, mac, now).rpl, now) else v
  }

  lemma HearFits(n: Node, pdu: bytes, mac: bool, now: nat)
    requires WellFormed(n.rpl)
    ensures WellFormed(Hear(n, pdu, mac, now).rpl)
  {
    hide Parse, Commit, Check, WellFormed, SetTtl;
    if Admits(n, pdu, mac, now) {
      var f := Parse(pdu).value.f;
      ParsedSize(pdu);
      CommitFits(n.rpl, f.src, f.seqNo, now);
    }
  }

  lemma CommitSaves(k: Keeper, c: Accepted, src: bytes)
    requires WellFormed(k.rpl) && |c.src| == 3
    ensures var k' := Handled(k, c, src);
      k'.rpl == Commit(k.rpl, c.src, c.n % U16, c.now) && WellFormed(k'.rpl) && k'.v == OnCommit(k.v, k'.rpl, c.now)
  {
    hide Commit, Export, WellFormed;
    CommitFits(k.rpl, c.src, c.n % U16, c.now);
  }

  lemma SavedFits(v: Saver, rpl: seq<Ent>, now: nat)
    requires WellFormed(rpl) && (v.blob.Some? ==> |v.blob.value| <= BLOB_MAX)
    ensures OnCommit(v, rpl, now).blob.Some? ==> |OnCommit(v, rpl, now).blob.value| <= BLOB_MAX
    ensures |SaveNow(v, rpl, now).blob.value| <= BLOB_MAX
  {
    hide WellFormed;
  }

  /** A PDU from another node with a right MAC, `n` being the number behind its sixteen bits. */
  lemma HearIsHeard(k: Keeper, node: Node, v: Saver, pdu: bytes, now: nat, n: int, src: bytes)
    requires Follows(k, node, v) && Parse(pdu).Some? && Parse(pdu).value.f.src != node.id
    requires Parse(pdu).value.f.seqNo == n % U16
    ensures |Parse(pdu).value.f.src| == 3
    ensures Follows(Step(k, Event.Heard(Accepted(Parse(pdu).value.f.src, n, now)), src),
                    Hear(node, pdu, true, now), SavingAfter(node, v, pdu, true, now))
  {
    hide Parse, Commit, Check, SetTtl, ForMe, Handled, OnCommit, Export;
    ParsedSize(pdu);
    HearFits(node, pdu, true, now);
    var c := Accepted(Parse(pdu).value.f.src, n, now);
    CommitSaves(k, c, src);
    SavedFits(v, Hear(node, pdu, true, now).rpl, now);
  }

  /** Any other PDU changes neither the list nor the settings. */
  lemma OthersAreNothing(node: Node, v: Saver, pdu: bytes, mac: bool, now: nat)
    requires WellFormed(node.rpl)
    requires Parse(pdu).None? || Parse(pdu).value.f.src == node.id || !mac
    ensures Hear(node, pdu, mac, now) == node && SavingAfter(node, v, pdu, mac, now) == v
    ensures Trust(node, pdu).rpl == node.rpl
  {
    hide Parse, SetTtl, ForMe;
    if Parse(pdu).Some? { ParsedSize(pdu); }
  }

  lemma TimerIsFire(k: Keeper, node: Node, v: Saver, full: bool, now: nat, src: bytes)
    requires Follows(k, node, v) && v.due.Some?
    ensures Follows(Step(k, Fire(full, now), src), node, v.(due := if full then Some(now + 1) else None))
    ensures !full ==> Step(k, Fire(full, now), src).queued
  {
    hide WellFormed;
  }

  lemma SaveIsJob(k: Keeper, node: Node, v: Saver, now: nat, src: bytes)
    requires Follows(k, node, v) && k.queued
    ensures Follows(Step(k, Job(now), src), node, if v.dirty then SaveNow(v, node.rpl, now) else v)
  {
    hide WellFormed, Export;
    SavedFits(v, node.rpl, now);
  }

  /** A boot with what is in the settings, as Boot's contract states it. */
  lemma BootIsCut(k: Keeper, node: Node, v: Saver, src: bytes)
    requires Follows(k, node, v)
    ensures Follows(Step(k, Cut, src),
                    Node(node.id, node.group,
                         if v.blob.Some? && |v.blob.value| <= BLOB_MAX then Import(v.blob.value)
                         else Repeat(UNUSED, SLOTS), [], []),
                    Saver(v.blob, 0, false, None))
  {
    hide WellFormed, Import;
  }
}
