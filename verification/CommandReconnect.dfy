/**
 * A dropped connection leaves the receive path at rest, whatever was half received, and with a slot
 * free: the first command of the next connection always arrives.
 */
module CommandReconnect {
  import opened Bytes
  import opened CommandDelivery
  import opened CommandQueue

  /** After a disconnect nothing is half received, nothing waits, nothing counts as lost, and every
      slot is free but the one whose command runs. */
  lemma DropRests(q: Queue)
    requires Inv(q)
    ensures var r := Step(q, Drop);
      && AtRest(r) && r.running == q.running && |r.free| + |Held(r.running)| == DEPTH
      && LedgerOf(r) == Ledger(q.ran, q.inlined, q.busy)
  {
    hide Places, Held;
    StepKeepsInv(q, Drop);
    CountPlaces(Step(q, Drop));
  }

  lemma CountPlaces(q: Queue)
    requires Placed(q) && q.ready == [] && q.rx.None? && q.opc.None?
    ensures |q.free| + |Held(q.running)| == DEPTH
  {
    var all := multiset(q.free) + multiset(Held(q.running));
    assert all == Places(q.free, q.ready, q.rx, q.opc, q.running);
    assert |all| == |multiset(q.free)| + |multiset(Held(q.running))|;
    assert |multiset{0 as Id, 1 as Id}| == 2;
  }

  /** The command thread only ever adds to the free list. */
  lemma FreeStays(q: Queue, e: Event)
    requires Inv(q) && Runs(e) && q.free != []
    ensures Step(q, e).free != []
  {
  }

  lemma {:induction false} LineGetsSlot(q: Queue, es: seq<Event>, text: bytes)
    requires Proper(Line(text)) && AtRest(q) && q.free != []
    requires Busy(es) && Received(es) == Wire(Line(text))
    ensures FreeAt(q, es, Lead(text))
    decreases |es|
  {
    hide LedgerOf, Feed, Take, Finish, Placed, Sized, Kept;
    var e, w := es[0], Wire(Line(text));
    ProperLine(text);
    assert w[0..] == w;
    NextByte(es, w, 0);
    if Runs(e) {
      AtRestRuns(q, e);
      FreeStays(q, e);
      LineGetsSlot(Step(q, e), es[1..], text);
    } else if text[0] == RETURN {
      BlankIgnored(q, RETURN);
      LeadPeels(text);
      LineGetsSlot(q, es[1..], text[1..]);
    }
  }

  /** Once the magic byte is in, the opcode byte finds the slot. */
  lemma {:induction false} OpcodeGetsSlot(q: Queue, es: seq<Event>, t: Token, was: Ledger)
    requires t.Frame? && Proper(t) && InFrame(q, t, 1, true, was) && q.free != []
    requires Busy(es) && Received(es) == Wire(t)[1..]
    ensures Inv(q) && FreeAt(q, es, 0)
    decreases |es|
  {
    hide InFrame, OpcFeed, Proper, Take, Finish, Inv, Places, Sized;
    InFrameSane(q, t, 1, true, was);
    var e := es[0];
    NextByte(es, Wire(t), 1);
    if Runs(e) {
      InFrameRuns(q, e, t, 1, true, was);
      FreeStays(q, e);
      OpcodeGetsSlot(Step(q, e), es[1..], t, was);
    }
  }

  lemma {:induction false} FrameGetsSlot(q: Queue, es: seq<Event>, t: Token)
    requires t.Frame? && Proper(t) && AtRest(q) && q.free != []
    requires Busy(es) && Received(es) == Wire(t)
    ensures FreeAt(q, es, 1)
    decreases |es|
  {
    hide Log, InFrame, Feed, Proper, Take, Finish, Placed, Sized;
    var e, w := es[0], Wire(t);
    assert w[0..] == w;
    NextByte(es, w, 0);
    if Runs(e) {
      AtRestRuns(q, e);
      FreeStays(q, e);
      FrameGetsSlot(Step(q, e), es[1..], t);
    } else {
      FrameStarts(q, t, true);
      MagicKeepsFree(q);
      OpcodeGetsSlot(Step(q, e), es[1..], t, LedgerOf(q));
    }
  }

  lemma MagicKeepsFree(q: Queue)
    requires AtRest(q)
    ensures Feed(q, OPC_MAGIC).free == q.free
  {
  }

  /** Whatever has been received, run and cut off since the tag started, in any interleaving: the
      first command sent after a disconnect arrives whole at the end of an empty queue, or is run
      at once if it is one of those that are. */
  lemma FirstAfterDrop(slots: seq<Slot>, before: seq<Event>, es: seq<Event>, t: Token)
    requires |slots| == DEPTH && forall i :: 0 <= i < DEPTH ==> |slots[i].line| == BUF
    requires Proper(t) && Busy(es) && Received(es) == Wire(t)
    ensures Inv(Seeded(slots))
    ensures var q := Run(Seeded(slots), before);
      && Inv(q)
      && var r := Step(q, Drop);
      && AtRest(r) && LedgerOf(r) == Ledger(q.ran, q.inlined, q.busy)
      && Outcome(Run(r, es), t, true, LedgerOf(r))
  {
    hide Inv, Run, Step, AtRest, Outcome, Proper, LedgerOf, FreeAt;
    SeededInv(slots);
    RunKeepsInv(Seeded(slots), before);
    var q := Run(Seeded(slots), before);
    DropRests(q);
    var r := Step(q, Drop);
    assert r.free != [];
    if t.Line? { LineGetsSlot(r, es, t.text); } else { FrameGetsSlot(r, es, t); }
    WholeOrNothing(r, es, t);
  }
}
